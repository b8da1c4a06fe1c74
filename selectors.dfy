/** The option lists that `populateDays`, `populateMonths` and `populateYears` append to
    the day, month and year selectors. */
module Selectors {
  import opened Wrappers
  import opened DateKey
  import opened Sales

  /** An `<option>`: the value the filter reads and the text the user sees (`textContent`). */
  datatype SelectOption = SelectOption(value: string, text: string)

  const DaysInSelector: nat := 31
  const MonthsInSelector: nat := 12

  /** The option for the number k: value `pad2(k)`, label `String(k)`. */
  function NumberedOption(k: nat): SelectOption
  {
    SelectOption(Pad2(k), NatToString(k))
  }

  /** Options for 1..n in ascending order. */
  function PaddedOptions(n: nat): seq<SelectOption>
  {
    seq(n, k requires 0 <= k => NumberedOption(k + 1))
  }

  function DayOptions(): seq<SelectOption> { PaddedOptions(DaysInSelector) }

  function MonthOptions(): seq<SelectOption> { PaddedOptions(MonthsInSelector) }

  /** The option for year y: value and label both `String(y)`. */
  function YearOption(y: int): SelectOption
  {
    SelectOption(IntToString(y), IntToString(y))
  }

  /** Options for the years lo..hi in ascending order; none when hi < lo. */
  function YearOptions(lo: int, hi: int): seq<SelectOption>
    decreases hi - lo + 1
  {
    if hi < lo then [] else YearOptions(lo, hi - 1) + [YearOption(hi)]
  }

  /** `records.map(r => parseInt(parseDMY(r.date).y, 10))`, or `None` as soon as one of
      them is `NaN`. */
  function YearValues(records: seq<SalesRecord>): Option<seq<int>>
  {
    if records == [] then Some([])
    else
      var y := RecordYear(records[0]);
      var rest := YearValues(records[1..]);
      if y.Some? && rest.Some? then Some([y.value] + rest.value) else None
  }

  /** `parseInt(parseDMY(r.date).y, 10)`. */
  function RecordYear(r: SalesRecord): Option<int>
  {
    ParsePart(ParseDMY(r.date).y)
  }

  function SeqMin(s: seq<int>): (m: int)
    requires s != []
    ensures m in s && forall i :: 0 <= i < |s| ==> m <= s[i]
  {
    if |s| == 1 then s[0] else var t := SeqMin(s[1..]); if s[0] <= t then s[0] else t
  }

  function SeqMax(s: seq<int>): (m: int)
    requires s != []
    ensures m in s && forall i :: 0 <= i < |s| ==> s[i] <= m
  {
    if |s| == 1 then s[0] else var t := SeqMax(s[1..]); if s[0] >= t then s[0] else t
  }

  /** `(Math.min(...years), Math.max(...years))` when both are finite integers. With no
      records they are Infinity and -Infinity, and with a NaN year both are NaN; in either
      case `populateYears`' loop condition is false at once, and the result is `None`. */
  function YearBounds(records: seq<SalesRecord>): Option<(int, int)>
  {
    var years := YearValues(records);
    if years.None? then None else Bounds(years.value)
  }

  /** The least and greatest of a list of years, if there is any. */
  function Bounds(ys: seq<int>): (b: Option<(int, int)>)
    ensures b.Some? <==> ys != []
    ensures b.Some? ==> b.value.0 <= b.value.1
  {
    if ys == [] then None else Some((SeqMin(ys), SeqMax(ys)))
  }

  /** What `populateYears` appends: every year from one before the smallest to one after
      the largest year in the records, or nothing when there are no bounds. */
  function YearOptionsFor(records: seq<SalesRecord>): seq<SelectOption>
  {
    PaddedRange(YearBounds(records))
  }

  /** The years from one before the lower bound to one after the upper bound. */
  function PaddedRange(bounds: Option<(int, int)>): seq<SelectOption>
  {
    if bounds.None? then [] else YearOptions(bounds.value.0 - 1, bounds.value.1 + 1)
  }

  /** Options 1..n: n of them, the k-th (from 0) with value `pad2(k + 1)`; one more
      number appends its option at the end. */
  lemma PaddedOptionsAt(n: nat)
    ensures |PaddedOptions(n)| == n
    ensures forall k :: 0 <= k < n ==>
      PaddedOptions(n)[k] == SelectOption(Pad2(k + 1), NatToString(k + 1))
    ensures PaddedOptions(n + 1) == PaddedOptions(n) + [NumberedOption(n + 1)]
  {
    assert PaddedOptions(n + 1)[..n] == PaddedOptions(n);
  }

  /** Options 1..n for n below 100: each value two characters long, all values distinct. */
  lemma PaddedOptionsDistinct(n: nat)
    requires n < 100
    ensures |PaddedOptions(n)| == n
    ensures forall k :: 0 <= k < n ==> |PaddedOptions(n)[k].value| == 2
    ensures forall j, k :: 0 <= j < k < n ==> PaddedOptions(n)[j].value != PaddedOptions(n)[k].value
  {
    PaddedOptionsAt(n);
    forall k | 0 <= k < n ensures |PaddedOptions(n)[k].value| == 2 {
      Pad2Digits(k + 1);
    }
    forall j, k | 0 <= j < k < n ensures PaddedOptions(n)[j].value != PaddedOptions(n)[k].value {
      if Pad2(j + 1) == Pad2(k + 1) {
        Pad2Injective(j + 1, k + 1);
      }
    }
  }

  /** The day selector gets 31 options "01".."31" and the month selector 12 options
      "01".."12", ascending, each two characters long and all distinct. */
  lemma DayAndMonthOptions()
    ensures |DayOptions()| == 31 && |MonthOptions()| == 12
    ensures forall k :: 0 <= k < 31 ==> DayOptions()[k] == SelectOption(Pad2(k + 1), NatToString(k + 1))
    ensures forall k :: 0 <= k < 12 ==> MonthOptions()[k] == DayOptions()[k]
    ensures forall j, k :: 0 <= j < k < 31 ==> DayOptions()[j].value != DayOptions()[k].value
  {
    PaddedOptionsAt(DaysInSelector);
    PaddedOptionsAt(MonthsInSelector);
    PaddedOptionsDistinct(DaysInSelector);
  }

  /** The years lo..hi: hi - lo + 1 consecutive ascending years (none when hi < lo). */
  lemma {:induction false} YearOptionsAt(lo: int, hi: int)
    ensures |YearOptions(lo, hi)| == if hi < lo then 0 else hi - lo + 1
    ensures forall k :: 0 <= k < |YearOptions(lo, hi)| ==> YearOptions(lo, hi)[k] == YearOption(lo + k)
    decreases hi - lo + 1
  {
    if hi >= lo {
      YearOptionsAt(lo, hi - 1);
      var prev := YearOptions(lo, hi - 1);
      var all := YearOptions(lo, hi);
      assert all == prev + [YearOption(hi)];
      forall k | 0 <= k < |all| ensures all[k] == YearOption(lo + k) {
        if k < |prev| {
          assert all[k] == prev[k];
        } else {
          assert k == hi - lo;
        }
      }
    }
  }

  /** The bounds are the least and the greatest year: any two years of the list that
      enclose all others are its bounds. */
  lemma BoundsOf(ys: seq<int>, lo: int, hi: int)
    requires lo in ys && hi in ys
    requires forall i :: 0 <= i < |ys| ==> lo <= ys[i] <= hi
    ensures Bounds(ys) == Some((lo, hi))
  {
    var m, n := SeqMin(ys), SeqMax(ys);
    assert lo <= m && n <= hi;
  }

  /** Bounds lo <= hi give hi - lo + 3 consecutive years, starting at lo - 1. */
  lemma PaddedRangeAt(lo: int, hi: int)
    requires lo <= hi
    ensures |PaddedRange(Some((lo, hi)))| == hi - lo + 3
    ensures forall k :: 0 <= k < |PaddedRange(Some((lo, hi)))| ==>
      PaddedRange(Some((lo, hi)))[k] == YearOption(lo - 1 + k)
  {
    YearOptionsAt(lo - 1, hi + 1);
  }

  /** The year selector gets maxY - minY + 3 consecutive ascending years, starting at
      minY - 1. */
  lemma YearOptionsForRange(records: seq<SalesRecord>, minY: int, maxY: int)
    requires YearBounds(records) == Some((minY, maxY))
    ensures |YearOptionsFor(records)| == maxY - minY + 3
    ensures forall k :: 0 <= k < |YearOptionsFor(records)| ==>
      YearOptionsFor(records)[k] == YearOption(minY - 1 + k)
  {
    assert Bounds(YearValues(records).value) == Some((minY, maxY));
    PaddedRangeAt(minY, maxY);
  }

  /** With no records there are no year options. */
  lemma NoRecordsNoYears()
    ensures YearOptionsFor([]) == []
  {
    assert YearValues([]) == Some([]);
  }

  lemma {:induction false} YearValuesAt(records: seq<SalesRecord>, i: nat)
    requires YearValues(records).Some? && i < |records|
    ensures |YearValues(records).value| == |records|
    ensures RecordYear(records[i]) == Some(YearValues(records).value[i])
  {
    var y := RecordYear(records[0]);
    var rest := YearValues(records[1..]);
    assert y.Some? && rest.Some? && YearValues(records).value == [y.value] + rest.value;
    if |records| > 1 {
      YearValuesAt(records[1..], if i > 0 then i - 1 else 0);
    }
  }

  /** When every record's year parses, the list of years is exactly those years. */
  lemma {:induction false} YearValuesOf(records: seq<SalesRecord>, ys: seq<int>)
    requires |ys| == |records|
    requires forall i :: 0 <= i < |records| ==> RecordYear(records[i]) == Some(ys[i])
    ensures YearValues(records) == Some(ys)
  {
    if records != [] {
      YearValuesOf(records[1..], ys[1..]);
      assert ys == [ys[0]] + ys[1..];
    }
  }

  /** Every year written plainly in a record's date can be chosen in the year selector:
      there is an option whose value is exactly that date's year part. */
  lemma YearOptionsCoverRecords(records: seq<SalesRecord>, i: nat, y: int)
    requires i < |records| && ParseDMY(records[i].date).y == Some(IntToString(y))
    requires YearBounds(records).Some?
    ensures exists k :: 0 <= k < |YearOptionsFor(records)| && YearOptionsFor(records)[k].value == IntToString(y)
  {
    var (minY, maxY) := YearBounds(records).value;
    var ys := YearValues(records).value;
    assert Bounds(ys) == Some((minY, maxY));
    YearValuesAt(records, i);
    ParseIntOfString(y);
    assert ys[i] == y;
    assert minY <= y <= maxY;
    YearOptionsForRange(records, minY, maxY);
    assert YearOptionsFor(records)[y - minY + 1] == YearOption(y);
  }
}
