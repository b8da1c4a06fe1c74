/** Sales records and `filterBySelections`: a stable filter that keeps a record when each
    non-empty selector equals the matching part of its "DD-MM-YYYY" date. */
module Sales {
  import opened Wrappers
  import opened DateKey

  /** One day of sales; the date string is not validated. */
  datatype SalesRecord = SalesRecord(date: string, revenue: nat, orders: nat, sold: nat)

  /** The current values of the day, month and year selectors; "" means "any". */
  datatype Selection = Selection(day: string, month: string, year: string)

  const AnySelection := Selection("", "", "")

  /** The predicate passed to `filter`: each non-empty selector must equal the part of the
      record's date in its position (an undefined part never equals a selector). */
  function Keeps(sel: Selection, r: SalesRecord): bool
  {
    var p := ParseDMY(r.date);
    if sel.day != "" && p.d != sel.day then false
    else if sel.month != "" && p.m != Some(sel.month) then false
    else if sel.year != "" && p.y != Some(sel.year) then false
    else true
  }

  /** `filterBySelections`: `records.filter(row => Keeps(sel, row))`. */
  function FilterBySelections(records: seq<SalesRecord>, sel: Selection): seq<SalesRecord>
  {
    if records == [] then []
    else (if Keeps(sel, records[0]) then [records[0]] else []) + FilterBySelections(records[1..], sel)
  }

  /** a is b with some elements removed, the rest in their original order. */
  ghost predicate IsSubsequence<T>(a: seq<T>, b: seq<T>)
  {
    if a == [] then true
    else if b == [] then false
    else (a[0] == b[0] && IsSubsequence(a[1..], b[1..])) || IsSubsequence(a, b[1..])
  }

  /** With every selector empty, the filter returns all records, in the same order. */
  lemma {:induction false} FilterAnyIsIdentity(records: seq<SalesRecord>)
    ensures FilterBySelections(records, AnySelection) == records
  {
    if records != [] {
      FilterAnyIsIdentity(records[1..]);
      assert records == [records[0]] + records[1..];
    }
  }

  /** The filter result is an order-preserving subsequence of the records. */
  lemma {:induction false} FilterIsSubsequence(records: seq<SalesRecord>, sel: Selection)
    ensures IsSubsequence(FilterBySelections(records, sel), records)
  {
    if records != [] {
      FilterIsSubsequence(records[1..], sel);
      var rest := FilterBySelections(records[1..], sel);
      var f := FilterBySelections(records, sel);
      if Keeps(sel, records[0]) {
        assert f[0] == records[0] && f[1..] == rest;
      } else {
        assert f == rest;
        if f != [] {
          assert IsSubsequence(f, records[1..]);
        }
      }
    }
  }

  /** Each record occurs in the result exactly as often as in the input when it matches the
      selection, and not at all otherwise; together with FilterIsSubsequence this fixes the
      result completely. */
  lemma {:induction false} FilterCounts(records: seq<SalesRecord>, sel: Selection)
    ensures forall r :: multiset(FilterBySelections(records, sel))[r]
                        == if Keeps(sel, r) then multiset(records)[r] else 0
    ensures forall r :: r in FilterBySelections(records, sel) <==> r in records && Keeps(sel, r)
  {
    if records != [] {
      FilterCounts(records[1..], sel);
      assert records == [records[0]] + records[1..];
      assert multiset(records) == multiset([records[0]]) + multiset(records[1..]);
    }
    var f := FilterBySelections(records, sel);
    forall r ensures r in f <==> r in records && Keeps(sel, r) {
      assert r in f <==> multiset(f)[r] > 0;
      assert r in records <==> multiset(records)[r] > 0;
    }
  }

  /** The filter never lengthens the list. */
  lemma {:induction false} FilterLength(records: seq<SalesRecord>, sel: Selection)
    ensures |FilterBySelections(records, sel)| <= |records|
  {
    if records != [] {
      FilterLength(records[1..], sel);
    }
  }

  /** A selection that keeps no record yields the empty list. */
  lemma {:induction false} FilterNone(records: seq<SalesRecord>, sel: Selection)
    requires forall i :: 0 <= i < |records| ==> !Keeps(sel, records[i])
    ensures FilterBySelections(records, sel) == []
  {
    if records != [] {
      FilterNone(records[1..], sel);
    }
  }

  /** A selection that keeps exactly the k-th record yields that record alone. */
  lemma {:induction false} FilterSingle(records: seq<SalesRecord>, sel: Selection, k: nat)
    requires k < |records|
    requires forall i :: 0 <= i < |records| ==> (Keeps(sel, records[i]) <==> i == k)
    ensures FilterBySelections(records, sel) == [records[k]]
  {
    if k == 0 {
      FilterNone(records[1..], sel);
    } else {
      FilterSingle(records[1..], sel, k - 1);
    }
  }

  /** The conjunctive law for a well-formed date: a record dated d-m-y is kept exactly
      when each selector is empty or equal to its own part. In particular a selection of
      exactly d, m and y keeps it, and "5" never matches a day "05". */
  lemma KeepsWellFormed(sel: Selection, r: SalesRecord, d: string, m: string, y: string)
    requires '-' !in d && '-' !in m && '-' !in y
    requires r.date == d + "-" + m + "-" + y
    ensures Keeps(sel, r) <==> ((sel.day == "" || sel.day == d)
                                && (sel.month == "" || sel.month == m)
                                && (sel.year == "" || sel.year == y))
  {
    ParseDMYOfParts(d, m, y);
  }

  /** A malformed date with fewer than two '-' is never kept once a year is selected. */
  lemma MalformedYearNeverKept(sel: Selection, r: SalesRecord)
    requires CountChar(r.date, '-') < 2 && sel.year != ""
    ensures !Keeps(sel, r)
  {
    ParseDMYMissingParts(r.date);
  }
}
