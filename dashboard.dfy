/** The dashboard's module-level state and event handlers, as one object: the three
    selectors' option lists and their "already filled" flags, the table body, and the
    chart instance. Each browser event is a direct call of the matching method. */
module Dashboard {
  import opened Wrappers
  import opened DateKey
  import opened Sales
  import opened Selectors
  import opened Render

  /** A selector's placeholder (its first option) gets the empty value, so that "no
      selection" reads as "". A selector without options is left alone. */
  function NormalizePlaceholder(options: seq<SelectOption>): (r: seq<SelectOption>)
    ensures |r| == |options|
    ensures 0 < |r| ==> r[0] == SelectOption("", options[0].text)
    ensures 0 < |r| ==> r[1..] == options[1..]
  {
    if options == [] then [] else [options[0].(value := "")] + options[1..]
  }

  /** The loop of `populateDays` and `populateMonths`: append the options for 1..n, in
      order, after the select's current options. */
  method AppendNumbered(select: seq<SelectOption>, n: nat) returns (r: seq<SelectOption>)
    ensures r == select + PaddedOptions(n)
  {
    r := select;
    var k := 1;
    while k <= n
      invariant 1 <= k <= n + 1
      invariant r == select + PaddedOptions(k - 1)
    {
      PaddedOptionsAt(k - 1);
      r := r + [SelectOption(Pad2(k), NatToString(k))];
      k := k + 1;
    }
  }

  /** The loop of `populateYears`: append one option per year lo..hi, in order, after the
      select's current options; nothing when hi < lo. */
  method AppendYears(select: seq<SelectOption>, lo: int, hi: int) returns (r: seq<SelectOption>)
    ensures r == select + YearOptions(lo, hi)
  {
    r := select;
    var y := lo;
    while y <= hi
      invariant lo <= y && (lo <= hi ==> y <= hi + 1) && (hi < lo ==> y == lo)
      invariant r == select + YearOptions(lo, y - 1)
    {
      r := r + [YearOption(y)];
      y := y + 1;
    }
  }

  /** The body of `populateYears`: derive the years of the records and their bounds; with
      finite bounds run the loop from one before the smallest to one after the largest
      year, otherwise the loop condition fails at once and nothing is appended. */
  method AppendYearOptions(select: seq<SelectOption>, records: seq<SalesRecord>) returns (r: seq<SelectOption>)
    ensures r == select + YearOptionsFor(records)
  {
    var bounds := YearBounds(records);
    if bounds.None? {
      return select;
    }
    var minY, maxY := bounds.value.0, bounds.value.1;
    assert YearOptionsFor(records) == YearOptions(minY - 1, maxY + 1);
    r := AppendYears(select, minY - 1, maxY + 1);
  }

  class Controller {
    const records: seq<SalesRecord>
    /** Whether the page has the chart canvas; without it `drawChart` does nothing. */
    const hasCanvas: bool
    /** The loop bounds of `populateDays` and `populateMonths`: the constructor sets them to
        `Selectors.DaysInSelector` (31) and `Selectors.MonthsInSelector` (12). */
    const dayCount: nat
    const monthCount: nat

    /** The selectors' options as the page provides them, placeholders normalized. */
    ghost const dayBase: seq<SelectOption>
    ghost const monthBase: seq<SelectOption>
    ghost const yearBase: seq<SelectOption>

    var dayOptions: seq<SelectOption>
    var monthOptions: seq<SelectOption>
    var yearOptions: seq<SelectOption>
    var daysFilled: bool
    var monthsFilled: bool
    var yearsFilled: bool

    var tbody: seq<Row>

    /** `chartInstance`: absent, or the data it currently shows. */
    var chart: Option<ChartData>
    /** How often `new Chart(...)` ran, and how often an existing chart was updated. */
    var chartConstructions: nat
    var chartUpdates: nat

    /** At most one chart is ever constructed: one exists exactly when it was constructed
        once, and never without a canvas. */
    ghost predicate ChartInvariant()
      reads this`chart, this`chartConstructions
    {
      && chartConstructions == (if chart.Some? then 1 else 0)
      && (!hasCanvas ==> chart == None)
    }

    /** Each selector holds its page options plus, once its flag is set, exactly one copy
        of the generated options. */
    ghost predicate DaysInvariant()
      reads this`dayOptions, this`daysFilled
    {
      dayOptions == dayBase + (if daysFilled then PaddedOptions(dayCount) else [])
    }

    ghost predicate MonthsInvariant()
      reads this`monthOptions, this`monthsFilled
    {
      monthOptions == monthBase + (if monthsFilled then PaddedOptions(monthCount) else [])
    }

    ghost predicate YearsInvariant()
      reads this`yearOptions, this`yearsFilled
    {
      yearOptions == yearBase + (if yearsFilled then YearOptionsFor(records) else [])
    }

    /** The object invariant; after start-up a page with a canvas has its chart. */
    ghost predicate Valid()
      reads this
    {
      && DaysInvariant() && MonthsInvariant() && YearsInvariant()
      && ChartInvariant() && (hasCanvas ==> chart.Some?)
    }

    /** Module start, up to the initial load: normalize the placeholders, clear the
        flags; no chart exists yet and the table body is still the page's own. */
    constructor (records: seq<SalesRecord>, hasCanvas: bool, dayPage: seq<SelectOption>,
                 monthPage: seq<SelectOption>, yearPage: seq<SelectOption>, bodyPage: seq<Row>)
      ensures DaysInvariant() && MonthsInvariant() && YearsInvariant() && ChartInvariant()
      ensures this.records == records && this.hasCanvas == hasCanvas
      ensures dayCount == DaysInSelector && monthCount == MonthsInSelector
      ensures dayOptions == NormalizePlaceholder(dayPage) && !daysFilled
      ensures monthOptions == NormalizePlaceholder(monthPage) && !monthsFilled
      ensures yearOptions == NormalizePlaceholder(yearPage) && !yearsFilled
      ensures tbody == bodyPage && chart == None && chartUpdates == 0
    {
      this.records := records;
      this.hasCanvas := hasCanvas;
      dayCount, monthCount := DaysInSelector, MonthsInSelector;
      dayBase := NormalizePlaceholder(dayPage);
      monthBase := NormalizePlaceholder(monthPage);
      yearBase := NormalizePlaceholder(yearPage);
      dayOptions := NormalizePlaceholder(dayPage);
      monthOptions := NormalizePlaceholder(monthPage);
      yearOptions := NormalizePlaceholder(yearPage);
      daysFilled, monthsFilled, yearsFilled := false, false, false;
      tbody := bodyPage;
      chart := None;
      chartConstructions, chartUpdates := 0, 0;
    }

    /** The initial load: fill the years early, then show all records in the table and
        the chart. */
    method Load()
      requires DaysInvariant() && MonthsInvariant() && YearsInvariant() && ChartInvariant()
      modifies this`yearOptions, this`yearsFilled, this`tbody
      modifies this`chart, this`chartConstructions, this`chartUpdates
      ensures Valid()
      ensures yearOptions == if old(yearsFilled) then old(yearOptions) else old(yearOptions) + YearOptionsFor(records)
      ensures tbody == TableRows(records)
      ensures yearsFilled
      ensures hasCanvas ==> chart == Some(ChartOf(records)) && chartConstructions == 1
      ensures hasCanvas && old(chart).Some? ==> chartUpdates == old(chartUpdates) + 1
      ensures hasCanvas && old(chart).None? ==> chartUpdates == old(chartUpdates)
      ensures !hasCanvas ==> chart == old(chart) && chartUpdates == old(chartUpdates)
    {
      PopulateYears();
      RenderTable(records);
      DrawChart(records);
    }

    /** `populateDays`: the first call appends the options for 1..dayCount (that is,
        "01".."31"); later calls do nothing. */
    method PopulateDays()
      requires DaysInvariant()
      modifies this`dayOptions, this`daysFilled
      ensures DaysInvariant() && daysFilled
      ensures dayOptions == if old(daysFilled) then old(dayOptions) else old(dayOptions) + PaddedOptions(dayCount)
    {
      if daysFilled {
        return;
      }
      dayOptions := AppendNumbered(dayOptions, dayCount);
      daysFilled := true;
    }

    /** `populateMonths`: the first call appends the options for 1..monthCount (that is,
        "01".."12"); later calls do nothing. */
    method PopulateMonths()
      requires MonthsInvariant()
      modifies this`monthOptions, this`monthsFilled
      ensures MonthsInvariant() && monthsFilled
      ensures monthOptions == if old(monthsFilled) then old(monthOptions) else old(monthOptions) + PaddedOptions(monthCount)
    {
      if monthsFilled {
        return;
      }
      monthOptions := AppendNumbered(monthOptions, monthCount);
      monthsFilled := true;
    }

    /** `populateYears`: the first call appends one option per year from one before the
        smallest to one after the largest year in the records (none without bounds) and
        sets the flag either way; later calls do nothing. */
    method PopulateYears()
      requires YearsInvariant()
      modifies this`yearOptions, this`yearsFilled
      ensures YearsInvariant() && yearsFilled
      ensures yearOptions == if old(yearsFilled) then old(yearOptions) else old(yearOptions) + YearOptionsFor(records)
    {
      if yearsFilled {
        return;
      }
      assert yearOptions == yearBase;
      yearOptions := AppendYearOptions(yearOptions, records);
      yearsFilled := true;
    }

    /** `renderTable(data)`: the body is replaced by one notice row for an empty list, and
        otherwise by one row per record, appended as a single batch. */
    method RenderTable(data: seq<SalesRecord>)
      modifies this`tbody
      ensures tbody == TableRows(data)
    {
      tbody := [];
      if |data| == 0 {
        tbody := [EmptyNotice];
        return;
      }
      var frag: seq<Row> := [];
      var i := 0;
      while i < |data|
        invariant 0 <= i <= |data|
        invariant frag == RowsOf(data[..i])
      {
        assert data[..i + 1][..i] == data[..i];
        frag := frag + [RowOf(data[i])];
        i := i + 1;
      }
      assert data[..i] == data;
      tbody := tbody + frag;
    }

    /** `drawChart(data)`: without a canvas nothing happens; otherwise the chart shows
        the dates and revenues of `data`, constructed on the first call and only updated
        on every later one. */
    method DrawChart(data: seq<SalesRecord>)
      requires ChartInvariant()
      modifies this`chart, this`chartConstructions, this`chartUpdates
      ensures ChartInvariant() && (hasCanvas ==> chart.Some?)
      ensures !hasCanvas ==> chart == old(chart) && chartUpdates == old(chartUpdates)
      ensures hasCanvas ==> chart == Some(ChartOf(data)) && chartConstructions == 1
      ensures hasCanvas && old(chart).Some? ==> chartUpdates == old(chartUpdates) + 1
      ensures hasCanvas && old(chart).None? ==> chartUpdates == old(chartUpdates)
    {
      if !hasCanvas {
        return;
      }
      var labels := Labels(data);
      var revenues := Values(data);
      if chart.Some? {
        chart := Some(ChartData(labels, revenues));
        chartUpdates := chartUpdates + 1;
        return;
      }
      chart := Some(ChartData(labels, revenues));
      chartConstructions := chartConstructions + 1;
    }

    /** The button: filter by the selectors' current values, render the result, and
        redraw the chart with it, or with all records when nothing matched. */
    method OnButtonClick(day: string, month: string, year: string)
      requires Valid()
      modifies this`tbody, this`chart, this`chartConstructions, this`chartUpdates
      ensures Valid()
      ensures tbody == TableRows(FilterBySelections(records, Selection(day, month, year)))
      ensures hasCanvas ==> chart == Some(ChartOf(ChartSource(records, FilterBySelections(records, Selection(day, month, year)))))
      ensures !hasCanvas ==> chart == old(chart)
      ensures chartConstructions == old(chartConstructions)
      ensures chartUpdates == old(chartUpdates) + (if hasCanvas then 1 else 0)
    {
      var filtered := FilterBySelections(records, Selection(day, month, year));
      RenderTable(filtered);
      DrawChart(if |filtered| > 0 then filtered else records);
    }
  }
}
