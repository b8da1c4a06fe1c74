/** The page's own data set and what the dashboard shows for it. */
module Scenarios {
  import opened Wrappers
  import opened DateKey
  import opened Sales
  import opened Selectors
  import opened Render
  import opened Dashboard

  /** A record of the data set, its date written as day, month and year joined by '-'. */
  function Rec(d: string, m: string, y: string, revenue: nat, orders: nat, sold: nat): SalesRecord
  {
    SalesRecord(d + "-" + m + "-" + y, revenue, orders, sold)
  }

  /** `sampleData`: five days of April 2025, one of March 2025 and one of April 2024. */
  function SampleData(): seq<SalesRecord>
  {
    [ Rec("01", "04", "2025", 250000, 10, 5),
      Rec("02", "04", "2025", 230000, 11, 6),
      Rec("03", "04", "2025", 250000, 12, 7),
      Rec("04", "04", "2025", 280000, 15, 8),
      Rec("05", "04", "2025", 300000, 18, 9),
      Rec("15", "03", "2025", 150000, 6, 3),
      Rec("05", "04", "2024", 120000, 5, 4) ]
  }

  /** The fifth sample record, the only one dated 05-04-2025. */
  function FifthOfApril(): SalesRecord
  {
    Rec("05", "04", "2025", 300000, 18, 9)
  }

  /** The filter's verdict on a sample record, read off its date parts. */
  lemma KeepsRec(sel: Selection, d: string, m: string, y: string, revenue: nat, orders: nat, sold: nat)
    requires '-' !in d && '-' !in m && '-' !in y
    ensures Keeps(sel, Rec(d, m, y, revenue, orders, sold)) <==>
      ((sel.day == "" || sel.day == d) && (sel.month == "" || sel.month == m) && (sel.year == "" || sel.year == y))
  {
    KeepsWellFormed(sel, Rec(d, m, y, revenue, orders, sold), d, m, y);
  }

  /** The year `parseInt` reads from a sample record whose year part is `String(n)`. */
  lemma RecYear(d: string, m: string, n: nat, revenue: nat, orders: nat, sold: nat)
    requires '-' !in d && '-' !in m
    ensures RecordYear(Rec(d, m, IntToString(n), revenue, orders, sold)) == Some(n)
  {
    NatToStringShape(n);
    assert forall i :: 0 <= i < |IntToString(n)| ==> IsDigit(IntToString(n)[i]);
    KeepsWellFormed(AnySelection, Rec(d, m, IntToString(n), revenue, orders, sold), d, m, IntToString(n));
    ParseDMYOfParts(d, m, IntToString(n));
    ParseIntOfString(n);
  }

  /** The year each sample record carries: 2025 for the first six, 2024 for the last. */
  lemma SampleYears()
    ensures YearValues(SampleData()) == Some([2025, 2025, 2025, 2025, 2025, 2025, 2024])
  {
    var s := SampleData();
    var ys := [2025, 2025, 2025, 2025, 2025, 2025, 2024];
    assert IntToString(2025) == "2025" && IntToString(2024) == "2024";
    forall i | 0 <= i < |s| ensures RecordYear(s[i]) == Some(ys[i]) {
      if i == 0 { RecYear("01", "04", 2025, 250000, 10, 5); }
      else if i == 1 { RecYear("02", "04", 2025, 230000, 11, 6); }
      else if i == 2 { RecYear("03", "04", 2025, 250000, 12, 7); }
      else if i == 3 { RecYear("04", "04", 2025, 280000, 15, 8); }
      else if i == 4 { RecYear("05", "04", 2025, 300000, 18, 9); }
      else if i == 5 { RecYear("15", "03", 2025, 150000, 6, 3); }
      else { RecYear("05", "04", 2024, 120000, 5, 4); }
    }
    YearValuesOf(s, ys);
  }

  /** Of six years 2025 and one 2024 the bounds are 2024 and 2025. */
  lemma SampleYearsBounds()
    ensures Bounds([2025, 2025, 2025, 2025, 2025, 2025, 2024]) == Some((2024, 2025))
  {
    var ys := [2025, 2025, 2025, 2025, 2025, 2025, 2024];
    assert ys[6] == 2024 && ys[0] == 2025;
    BoundsOf(ys, 2024, 2025);
  }

  /** The smallest sample year is 2024 and the largest 2025. */
  lemma SampleBounds()
    ensures YearBounds(SampleData()) == Some((2024, 2025))
  {
    SampleYears();
    SampleYearsBounds();
  }

  /** The years 2023 through 2026, one option each. */
  lemma YearOptions2023To2026()
    ensures YearOptions(2023, 2026) == [YearOption(2023), YearOption(2024), YearOption(2025), YearOption(2026)]
  {
  }

  /** The sample years are 2024 and 2025, so the year selector gets 2023 through 2026. */
  lemma SampleYearOptions()
    ensures YearOptionsFor(SampleData()) == [YearOption(2023), YearOption(2024), YearOption(2025), YearOption(2026)]
  {
    SampleBounds();
    YearOptions2023To2026();
  }

  /** A selection of day 05, month 04 and year 2025 keeps the fifth sample record and no
      other. */
  lemma SampleKeepsFifth(sel: Selection)
    requires sel.day == "05" && sel.month == "04" && sel.year == "2025"
    ensures forall i :: 0 <= i < |SampleData()| ==> (Keeps(sel, SampleData()[i]) <==> i == 4)
  {
    var s := SampleData();
    forall i | 0 <= i < |s| ensures Keeps(sel, s[i]) <==> i == 4 {
      if i == 0 { KeepsRec(sel, "01", "04", "2025", 250000, 10, 5); }
      else if i == 1 { KeepsRec(sel, "02", "04", "2025", 230000, 11, 6); }
      else if i == 2 { KeepsRec(sel, "03", "04", "2025", 250000, 12, 7); }
      else if i == 3 { KeepsRec(sel, "04", "04", "2025", 280000, 15, 8); }
      else if i == 4 { KeepsRec(sel, "05", "04", "2025", 300000, 18, 9); }
      else if i == 5 { KeepsRec(sel, "15", "03", "2025", 150000, 6, 3); }
      else { KeepsRec(sel, "05", "04", "2024", 120000, 5, 4); }
    }
  }

  /** Any selection of year 2099 keeps no sample record, whatever day and month. */
  lemma SampleKeepsNoneOf2099(sel: Selection)
    requires sel.year == "2099"
    ensures forall i :: 0 <= i < |SampleData()| ==> !Keeps(sel, SampleData()[i])
  {
    var s := SampleData();
    forall i | 0 <= i < |s| ensures !Keeps(sel, s[i]) {
      if i == 0 { KeepsRec(sel, "01", "04", "2025", 250000, 10, 5); }
      else if i == 1 { KeepsRec(sel, "02", "04", "2025", 230000, 11, 6); }
      else if i == 2 { KeepsRec(sel, "03", "04", "2025", 250000, 12, 7); }
      else if i == 3 { KeepsRec(sel, "04", "04", "2025", 280000, 15, 8); }
      else if i == 4 { KeepsRec(sel, "05", "04", "2025", 300000, 18, 9); }
      else if i == 5 { KeepsRec(sel, "15", "03", "2025", 150000, 6, 3); }
      else { KeepsRec(sel, "05", "04", "2024", 120000, 5, 4); }
    }
  }

  /** Filtering the sample by day 05, month 04 and year 2025 leaves the fifth record. */
  lemma SampleFilterFifth(sel: Selection)
    requires sel.day == "05" && sel.month == "04" && sel.year == "2025"
    ensures FilterBySelections(SampleData(), sel) == [FifthOfApril()]
  {
    SampleKeepsFifth(sel);
    FilterSingle(SampleData(), sel, 4);
  }

  /** Filtering the sample by year 2099 leaves nothing. */
  lemma SampleFilterNoneOf2099(sel: Selection)
    requires sel.year == "2099"
    ensures FilterBySelections(SampleData(), sel) == []
  {
    SampleKeepsNoneOf2099(sel);
    FilterNone(SampleData(), sel);
  }

  /** The table for the fifth record alone: its one row. */
  lemma FifthRow()
    ensures TableRows([FifthOfApril()]) == [RecordRow("05-04-2025", 300000, 18, 9)]
  {
    assert FifthOfApril().date == "05-04-2025";
    TableRowsShape([FifthOfApril()]);
  }

  /** The chart for the fifth record alone: one bar, labelled with its date. */
  lemma FifthChart()
    ensures ChartOf([FifthOfApril()]) == ChartData(["05-04-2025"], [300000])
  {
    assert FifthOfApril().date == "05-04-2025";
    ChartOfAt([FifthOfApril()]);
  }

  /** Day 05, month 04, year 2025 keeps exactly the fifth record: one table row and one
      chart point labelled with its date. */
  lemma SampleSelectDay()
    ensures FilterBySelections(SampleData(), Selection("05", "04", "2025")) == [FifthOfApril()]
    ensures TableRows([FifthOfApril()]) == [RecordRow("05-04-2025", 300000, 18, 9)]
    ensures ChartOf([FifthOfApril()]) == ChartData(["05-04-2025"], [300000])
  {
    SampleFilterFifth(Selection("05", "04", "2025"));
    FifthRow();
    FifthChart();
  }

  /** Year 2099 keeps nothing: the table shows the notice, and the chart falls back to all
      seven records. */
  lemma SampleNoMatch()
    ensures FilterBySelections(SampleData(), Selection("", "", "2099")) == []
    ensures TableRows(FilterBySelections(SampleData(), Selection("", "", "2099"))) == [EmptyNotice]
    ensures ChartSource(SampleData(), FilterBySelections(SampleData(), Selection("", "", "2099"))) == SampleData()
  {
    SampleFilterNoneOf2099(Selection("", "", "2099"));
  }

  /** A page with a canvas is loaded with the sample data, the user picks 05/04/2025 and
      clicks: the table and the chart then show the fifth record alone, on the chart
      constructed at load time. */
  method SampleSession() returns (rows: seq<Row>, shown: Option<ChartData>, constructions: nat)
    ensures rows == [RecordRow("05-04-2025", 300000, 18, 9)]
    ensures shown == Some(ChartData(["05-04-2025"], [300000]))
    ensures constructions == 1
  {
    var c := new Controller(SampleData(), true, [], [], [], []);
    c.Load();
    SampleSelectDay();
    c.OnButtonClick("05", "04", "2025");
    rows, shown, constructions := c.tbody, c.chart, c.chartConstructions;
  }
}
