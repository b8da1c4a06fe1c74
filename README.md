# Sales dashboard: a Dafny model

This project models the client-side sales dashboard of `script.js`. The page holds an
in-memory list of daily sales records (a date `dd-mm-yyyy`, revenue, orders, items sold).
Three drop-downs let the user pick a day, a month and a year.

- The day and month selectors are filled lazily, at most once each.
- The year selector is filled at start-up. It gets every year from one before the
  smallest to one after the largest year in the data.
- The button filters the records by the non-empty selections and shows the result in
  the table. It redraws a bar chart of revenue per record, or of all records when
  nothing matched.

The modules follow the program's parts:

| module | models |
|---|---|
| `Wrappers` | `Option`, standing for JavaScript's `undefined`/`NaN` |
| `DateKey` | `String(n)`, `padStart`/`pad2`, `split('-')`/`parseDMY`, and `parseInt(s, 10)` |
| `Sales` | the record type and the filter `filterBySelections` |
| `Selectors` | the option lists `populateDays`, `populateMonths` and `populateYears` append |
| `Render` | the rows `renderTable` writes and the arrays `drawChart` hands to the chart |
| `Dashboard` | module state (selector options, flags, table body, chart instance) as the `Controller` class; each handler is a method |
| `Scenarios` | the page's own `sampleData` and what the dashboard shows for it |

Each selector is modelled as the sequence of its options. The table body is a sequence of
rows. The chart instance is `None` or the labels and values it shows. Two counters record
how often a chart was constructed and how often it was updated. Browser events are direct
method calls. The three selected values are the parameters of `OnButtonClick`. Whether the
page has a canvas is a constructor parameter, and so are the options and the table body
the page starts with.

Module start comes in two steps:

1. The constructor models the declarations through the populate flags (lines 11-28): it
   normalizes the placeholders and clears the flags.
2. `Load` models the initial load (lines 161-163).

## Model

| member | source | states |
|---|---|---|
| DateKey.NatToString | script.js:44 | `String(n)` for a natural number, the option label of `populateDays`/`populateMonths`; its laws are `NatToStringShape` (digits only, no leading zero) and `DigitsValueOfNat` (the digits denote n) |
| DateKey.IntToString | script.js:69 | `String(y)` for any integer, the year option's value and label; `ParseIntOfString` proves that `parseInt` reads it back and `IntToStringInjective` that distinct years give distinct strings |
| DateKey.PadStart | script.js:31 | `padStart(width, fill)`; `PadStartShape` states its length, that the input is kept as the suffix, and that only fill characters precede it |
| DateKey.Pad2 | script.js:31 | `pad2 = String(n).padStart(2, '0')`; `Pad2Digits` gives its closed form below 100, and `Pad2Shape`/`Pad2Injective` give the 1..31 shape and injectivity |
| DateKey.ParseDMY | script.js:32-35 | `parseDMY`: the pieces of `split('-')` at positions 0, 1, 2, with a missing piece undefined; `ParseDMYRoundTrip`, `ParseDMYOfParts` and `ParseDMYMissingParts` state its laws |
| DateKey.ParseInt | script.js:64 | `parseInt(s, 10)`: an optional sign and the leading decimal digits, `NaN` when there are none; `ParseDigits`, `ParseMinusDigits` and `ParseIntOfString` state its laws |
| DateKey.NatToStringShape | script.js:31 | `String(n)` is a non-empty string of decimal digits; it has one character exactly when n < 10 and starts with '0' only for 0 |
| DateKey.DigitsValueOfNat | script.js:69 | the digits of `String(n)` denote n again |
| DateKey.PadStartShape | script.js:31 | `padStart` stretches a shorter string to exactly the width and never cuts a longer one; the input is the suffix and only the fill character precedes it |
| DateKey.Pad2Digits | script.js:31 | below 100, `pad2(n)` is the tens digit followed by the units digit |
| DateKey.Pad2Shape | script.js:31 | for a day 1..31, `pad2` is two characters, starts with '0' exactly for single-digit days, and ends with the units digit |
| DateKey.Pad2Injective | script.js:31 | distinct numbers below 100 get distinct `pad2` values |
| DateKey.Split | script.js:33 | `split` always yields at least one piece (the empty string gives `[""]`) |
| DateKey.SplitJoin | script.js:33 | `split('-')` yields one piece more than there are '-', no piece holds a '-', and joining the pieces with '-' gives the string back |
| DateKey.SplitPrefix | script.js:33 | a separator-free prefix becomes part of the first piece and leaves the other pieces alone |
| DateKey.JoinSplit | script.js:33 | splitting a '-'-join of '-'-free pieces gives the pieces back |
| DateKey.ParseDMYRoundTrip | script.js:32-35 | with exactly two '-' all three parts exist, and d + "-" + m + "-" + y is the date again |
| DateKey.ParseDMYMissingParts | script.js:32-35 | with fewer than two '-' the year part is undefined; with none the month is undefined too and the day is the whole string |
| DateKey.ParseDMYOfParts | script.js:32-35 | `parseDMY` of '-'-free d, m, y joined by '-' returns exactly d, m, y by position |
| DateKey.LeadingDigits | script.js:64 | the run of decimal digits `parseInt` reads from the start of a string; its own ensures says it is all digits, and `LeadingDigitsPrefix`/`LeadingDigitsAll` state that it is the longest such prefix |
| DateKey.ParsePart | script.js:64 | `parseInt` of a date part that may be `undefined`, which gives `NaN`; `ParseDMYOfParts` with `ParseIntOfString` reads a plainly written year back through it |
| DateKey.LeadingDigitsPrefix | script.js:64 | the digits `parseInt` reads are a prefix of the input and stop at the first non-digit |
| DateKey.LeadingDigitsAll | script.js:64 | on a string of digits `parseInt` reads all of it |
| DateKey.ParseDigits | script.js:64 | `parseInt` of a non-empty digit string is the number those digits denote |
| DateKey.ParseMinusDigits | script.js:64 | `parseInt` of '-' and a digit string is the negated number |
| DateKey.ParseIntOfString | script.js:69 | `parseInt(String(y), 10) == y` for every integer y |
| DateKey.IntToStringInjective | script.js:69 | distinct years give distinct option values |
| Sales.Keeps | script.js:112-116 | the filter's predicate, the early-return chain of the arrow function; `KeepsWellFormed` states its conjunctive law on well-formed dates, and `FilterCounts` ties it to membership in the result |
| Sales.FilterBySelections | script.js:106-117 | `filterBySelections`: `filter` with `Keeps`; `FilterCounts`, `FilterIsSubsequence`, `FilterAnyIsIdentity`, `FilterNone` and `FilterSingle` state what it keeps, in which order and how often |
| Sales.FilterAnyIsIdentity | script.js:106-117 | with all three selectors empty the filter returns every record, in order |
| Sales.FilterIsSubsequence | script.js:111 | the result is the input with some records removed, the rest in their original order |
| Sales.FilterCounts | script.js:111-117 | a kept record occurs as often as in the input, a rejected one not at all; a record is in the result exactly when it is in the input and kept |
| Sales.FilterLength | script.js:111 | the filter never lengthens the list |
| Sales.FilterNone | script.js:111-117 | a selection that keeps no record yields the empty list |
| Sales.FilterSingle | script.js:111-117 | a selection that keeps exactly one record yields that record alone |
| Sales.KeepsWellFormed | script.js:112-116 | for a date d-m-y, kept exactly when each selector is empty or equals its part; the match is exact string equality, so "5" never matches "05" |
| Sales.MalformedYearNeverKept | script.js:115 | a date with fewer than two '-' is never kept once a year is selected |
| Selectors.NumberedOption | script.js:42-44 | the option the day and month loops build for the number k, with value `pad2(k)` and label `String(k)`; `PaddedOptionsAt` states that the k-th appended option is this one |
| Selectors.PaddedOptions | script.js:41-57 | the options the `populateDays`/`populateMonths` loops append, one per number 1..n; `PaddedOptionsAt`, `PaddedOptionsDistinct` and `DayAndMonthOptions` state its laws, and `AppendNumbered` is the loop proved equal to it |
| Selectors.PaddedOptionsAt | script.js:41-46 | the closed form of the loop's output (n options, the k-th with value `pad2(k+1)` and label `String(k+1)`) and its one-step law: one more step appends its option at the end |
| Selectors.PaddedOptionsDistinct | script.js:41-46 | below 100 every value is two characters and all values are distinct |
| Selectors.DayOptions | script.js:41-46 | what `populateDays` appends, the options for 1..31; `DayAndMonthOptions` states its laws |
| Selectors.MonthOptions | script.js:52-57 | what `populateMonths` appends, the options for 1..12; `DayAndMonthOptions` states its laws |
| Selectors.DayAndMonthOptions | script.js:41-57 | the day selector gets the 31 options "01".."31" and the month selector the first 12 of them; all day values are distinct |
| Selectors.YearBounds | script.js:64-66 | the finite minimum and maximum of the records' parsed years; `None` when there are no records (the page then has the bounds `Infinity` and `-Infinity`) or when a year is `NaN` (the page then has `NaN` bounds); `Bounds`, `BoundsOf` and `YearValuesOf` state its laws |
| Selectors.YearOptionsFor | script.js:64-72 | what `populateYears` appends; `YearOptionsForRange` gives the consecutive years from min - 1 to max + 1, `NoRecordsNoYears` the empty case, and `YearOptionsCoverRecords` that every record's year is selectable |
| Selectors.SeqMin | script.js:65 | `Math.min` of a non-empty list is one of its elements and no greater than any |
| Selectors.SeqMax | script.js:66 | `Math.max` of a non-empty list is one of its elements and no smaller than any |
| Selectors.Bounds | script.js:65-66 | bounds exist exactly for a non-empty list of years, and the minimum is at most the maximum |
| Selectors.BoundsOf | script.js:65-66 | two years of the list that enclose all the others are its bounds |
| Selectors.YearOption | script.js:68-70 | the option the year loop builds for year y, with value and label `String(y)`; `YearOptionsAt` states that the k-th appended option is this one, and `IntToStringInjective` that distinct years give distinct values |
| Selectors.YearOptions | script.js:67-72 | the options the `populateYears` loop appends for the years lo..hi; `YearOptionsAt` states its laws, and `AppendYears` is the loop proved equal to it |
| Selectors.YearValues | script.js:64 | `sampleData.map(r => parseInt(parseDMY(r.date).y, 10))`; `None` as soon as one year is `NaN`, since the page's list then holds a `NaN`; `YearValuesAt` and `YearValuesOf` state its laws |
| Selectors.RecordYear | script.js:64 | one record's `parseInt(parseDMY(r.date).y, 10)`; `YearOptionsCoverRecords` and `Scenarios.RecYear` read it off a plainly written year |
| Selectors.YearOptionsAt | script.js:67-72 | the loop lo..hi gives hi - lo + 1 year options, the k-th for year lo + k; none when hi < lo |
| Selectors.PaddedRange | script.js:67 | the loop bounds `minY - 1 .. maxY + 1`, and no options without finite bounds; `PaddedRangeAt` states its law |
| Selectors.PaddedRangeAt | script.js:67 | bounds lo <= hi give hi - lo + 3 consecutive years starting at lo - 1 |
| Selectors.YearOptionsForRange | script.js:64-72 | for records with years minY..maxY the year selector gets maxY - minY + 3 consecutive ascending years starting at minY - 1 |
| Selectors.NoRecordsNoYears | script.js:64-72 | with no records no year option is appended (`Math.min()` is Infinity, so the loop does not run) |
| Selectors.YearValuesAt | script.js:64 | when every year parses, the list of years has one entry per record, the i-th being record i's year |
| Selectors.YearValuesOf | script.js:64 | when every record's year parses, the list of years is exactly those years |
| Selectors.YearOptionsCoverRecords | script.js:64-72 | every year written plainly in a record's date has an option whose value is exactly that year string |
| Render.TableRows | script.js:85-103 | the table body `renderTable` leaves; `TableRowsShape` and `RowsOfAt` state its laws |
| Render.ChartOf | script.js:124-125 | the labels and values `drawChart` hands to the chart; `ChartOfAt` states that they line up with the data |
| Render.ChartSource | script.js:170 | the button's fallback: the filtered list unless it is empty, else all records; `ClickChartShape` states what the chart then shows |
| Render.RowOf | script.js:93-99 | the `<tr>` with four cells built for one record: its date, revenue, orders and sold; `RowsOfAt` states that the k-th row is this one for the k-th record |
| Render.RowsOf | script.js:92-101 | the rows the `data.forEach` loop appends, one per record; `RowsOfAt` states its law, and `Controller.RenderTable` is the loop proved equal to it |
| Render.Labels | script.js:124 | `data.map(r => r.date)`; `ChartOfAt` states that it has one label per record, in order |
| Render.Values | script.js:125 | `data.map(r => r.revenue)`; `ChartOfAt` states that it has one value per record, in order |
| Render.RowsOfAt | script.js:91-101 | one row per record, the k-th row showing the k-th record's date, revenue, orders and sold |
| Render.TableRowsShape | script.js:85-103 | an empty list gives exactly the one notice row; otherwise one record row per record, in order, and no notice |
| Render.ChartOfAt | script.js:124-125 | labels and values are as long as the data and line up with each record's date and revenue |
| Render.ClickChartShape | script.js:166-171 | after a click the chart shows the filtered records' dates and revenues, all matching the selection, or all records when nothing matched; it is never empty while there are records |
| Dashboard.NormalizePlaceholder | script.js:21-23 | the first option's value becomes "" with its label kept; the other options and the length are unchanged |
| Dashboard.AppendNumbered | script.js:41-46 | the loop appends exactly the options for 1..n, in order, after the current options |
| Dashboard.AppendYears | script.js:67-72 | the loop appends exactly the year options lo..hi, in order, after the current options |
| Dashboard.AppendYearOptions | script.js:64-72 | the body of `populateYears` past its guard appends exactly `YearOptionsFor(records)`: the padded year range, or nothing without finite bounds |
| Dashboard.Controller.constructor | script.js:20-27 | placeholders normalized, all three flags false, no chart yet, day and month loop bounds 31 and 12; every selector invariant holds |
| Dashboard.Controller.Load | script.js:161-163 | after the initial load the year flag is set and the years are appended at most once, the table shows all records, and with a canvas the chart shows all records; the chart was constructed once, and an existing chart was updated rather than rebuilt |
| Dashboard.Controller.PopulateDays | script.js:39-48 | the first call appends "01".."31" and sets the flag; later calls change nothing; the selector always holds its page options plus at most one copy |
| Dashboard.Controller.PopulateMonths | script.js:50-59 | the first call appends "01".."12" and sets the flag; later calls change nothing |
| Dashboard.Controller.PopulateYears | script.js:61-74 | the first call appends the padded year range (nothing without finite bounds) and sets the flag either way; later calls change nothing |
| Dashboard.Controller.RenderTable | script.js:85-103 | the table body is replaced completely: the notice row for no data, else one row per record in order |
| Dashboard.Controller.DrawChart | script.js:122-158 | without a canvas nothing changes; otherwise the chart shows the data's dates and revenues, constructed on the first call and only updated on later ones, so at most one chart ever exists |
| Dashboard.Controller.OnButtonClick | script.js:166-171 | the table shows the filtered records; the chart shows them, or all records when none matched; with a canvas the existing chart gets exactly one more `update()` and no new chart is constructed |
| Scenarios.SampleData | script.js:2-10 | the `sampleData` literal, record by record; `SampleYears`, `SampleBounds`, `SampleKeepsFifth` and `SampleSession` state what the dashboard does with it |
| Scenarios.SampleYears | script.js:64 | the sample's years are 2025 six times and 2024 once |
| Scenarios.SampleBounds | script.js:65-66 | the sample's smallest year is 2024 and its largest 2025 |
| Scenarios.SampleYearOptions | script.js:61-74 | for the sample data the year selector gets exactly 2023, 2024, 2025, 2026 |
| Scenarios.SampleKeepsFifth | script.js:111-117 | day 05, month 04, year 2025 keeps the fifth sample record and no other |
| Scenarios.SampleKeepsNoneOf2099 | script.js:115 | year 2099 keeps no sample record, whatever day and month |
| Scenarios.SampleSelectDay | script.js:106-117 | day 05, month 04, year 2025 yields only the record (300000, 18, 9), one table row, and one chart label "05-04-2025" |
| Scenarios.SampleNoMatch | script.js:166-171 | year 2099 yields nothing; the table shows exactly the notice row and the chart falls back to all seven records |
| Scenarios.SampleSession | script.js:161-171 | loading the sample with a canvas, then clicking with 05/04/2025, leaves one table row and a one-bar chart labelled "05-04-2025", constructed only once |

## Left out

- The DOM and the event wiring (lines 11-17, 77-82): each selector is a sequence of options, the table body a sequence of rows, and each `focus`/`click` listener a direct call of the populate method. A missing element other than the canvas is not modelled; in the page it makes start-up fail.
- The HTML of the rows and of the notice (lines 88, 94-99): a row is a datatype holding the four shown values, and the notice is one constructor.
- `formatCurrency` and `toLocaleString('vi-VN')` (line 36): locale formatting is opaque here, so a row holds the revenue as a number.
- The Chart.js options and styling, and the `getContext('2d')` call (lines 134-157): only the labels and values a chart shows are modelled, plus how often one was constructed or updated. The dataset title is 'Doanh thu' in the code.
- The `new Set(...)` and `.sort()` in `populateYears` (line 64): neither changes the minimum or maximum, so the model takes those over the plain list of years.
- parseInt's skipping of leading whitespace: the model reads an optional sign and then the leading digits.
- Number width: revenue, counts and years are unbounded integers rather than IEEE doubles.
- The `!data` case of `renderTable` (line 87): every caller passes an array.
- What the user has selected: the current `value` of each selector is a parameter of `OnButtonClick`. Population does not touch the selection, and the model does not show that.
- Dashboard.AppendNumbered, Dashboard.AppendYears: the loops collect the new options in a local sequence and assign the selector once at the end. The page appends them one at a time, with no observer in between.
- Dashboard.Controller.constructor: the day and month loop bounds are constant fields set to 31 and 12 here, rather than literals inside the populate methods.
- Dashboard.Controller.Load: it requires the selector and chart invariants the constructor establishes, rather than exactly the freshly constructed state.

With no records there are no bounds for the year range. The code needs no guard for this: `Math.min()` is Infinity and `Math.max()` is -Infinity, so the loop never runs. A year that fails to parse makes both bounds NaN, with the same effect. The model follows the code: both cases give no year option, and the flag is still set.
