/** String helpers of the dashboard: `String(n)`, `padStart`, `pad2`, `split('-')`,
    `parseDMY` and `parseInt(s, 10)`, as pure functions over `seq<char>`. */
module DateKey {
  import opened Wrappers

  predicate IsDigit(c: char) { '0' <= c <= '9' }

  predicate AllDigits(s: string) { forall i :: 0 <= i < |s| ==> IsDigit(s[i]) }

  /** The decimal digit character of k. */
  function DigitChar(k: nat): (c: char)
    requires k < 10
    ensures IsDigit(c) && (c as int) - ('0' as int) == k
  {
    (('0' as int) + k) as char
  }

  function DigitValue(c: char): (k: nat)
    requires IsDigit(c)
    ensures k < 10 && DigitChar(k) == c
  {
    (c as int) - ('0' as int)
  }

  /** `String(n)` for a non-negative integer: its decimal digits, no leading zero. */
  function NatToString(n: nat): string
  {
    if n < 10 then [DigitChar(n)] else NatToString(n / 10) + [DigitChar(n % 10)]
  }

  /** `String(i)` for any integer: a minus sign before the digits of a negative number. */
  function IntToString(i: int): string
  {
    if i < 0 then "-" + NatToString(-i) else NatToString(i)
  }

  /** String(n) is a non-empty run of digits, one digit exactly below 10, and starts with
      '0' only for zero. */
  lemma {:induction false} NatToStringShape(n: nat)
    ensures 0 < |NatToString(n)| && AllDigits(NatToString(n))
    ensures |NatToString(n)| == 1 <==> n < 10
    ensures NatToString(n)[0] == '0' ==> n == 0
  {
    if n >= 10 {
      NatToStringShape(n / 10);
      assert NatToString(n)[0] == NatToString(n / 10)[0];
    }
  }

  /** `s.padStart(width, fill)`: fill characters in front of s up to the given width. */
  function PadStart(s: string, width: nat, fill: char): string
    decreases width - |s|
  {
    if |s| < width then PadStart([fill] + s, width, fill) else s
  }

  /** padStart reaches the width without cutting s: s ends the result and only fill
      characters stand before it. */
  lemma {:induction false} PadStartShape(s: string, width: nat, fill: char)
    ensures |PadStart(s, width, fill)| == if |s| < width then width else |s|
    ensures PadStart(s, width, fill)[|PadStart(s, width, fill)| - |s|..] == s
    ensures forall i :: 0 <= i < |PadStart(s, width, fill)| - |s| ==> PadStart(s, width, fill)[i] == fill
    decreases width - |s|
  {
    if |s| < width {
      var t := [fill] + s;
      PadStartShape(t, width, fill);
      var r := PadStart(t, width, fill);
      assert r[|r| - |t|..] == t;
      assert r[|r| - |s|..] == t[1..];
      forall i | 0 <= i < |r| - |s| ensures r[i] == fill {
        if i >= |r| - |t| {
          assert r[i] == t[i - (|r| - |t|)];
        }
      }
    }
  }

  /** `pad2(n)`: `String(n).padStart(2, '0')`. */
  function Pad2(n: nat): string
  {
    PadStart(NatToString(n), 2, '0')
  }

  /** Below 100, pad2 writes exactly the tens digit and the units digit. */
  lemma Pad2Digits(n: nat)
    requires n < 100
    ensures Pad2(n) == [DigitChar(n / 10), DigitChar(n % 10)]
  {
    if n >= 10 {
      assert NatToString(n / 10) == [DigitChar(n / 10)];
    } else {
      assert PadStart([DigitChar(n)], 2, '0') == PadStart(['0', DigitChar(n)], 2, '0');
      assert DigitChar(0) == '0';
    }
  }

  /** For a day or month number, pad2 gives two characters, with a leading '0' exactly
      below 10, and distinct numbers give distinct strings. */
  lemma Pad2Shape(n: nat)
    requires 1 <= n <= 31
    ensures |Pad2(n)| == 2
    ensures Pad2(n)[0] == '0' <==> n < 10
    ensures Pad2(n)[1] == DigitChar(n % 10)
  {
    Pad2Digits(n);
  }

  lemma Pad2Injective(a: nat, b: nat)
    requires a < 100 && b < 100 && Pad2(a) == Pad2(b)
    ensures a == b
  {
    Pad2Digits(a);
    Pad2Digits(b);
    assert DigitValue(Pad2(a)[0]) == a / 10 && DigitValue(Pad2(a)[1]) == a % 10;
    assert DigitValue(Pad2(b)[0]) == b / 10 && DigitValue(Pad2(b)[1]) == b % 10;
  }

  // ---- split ----

  /** `s.split(sep)` for a one-character separator: the pieces between separators, in order,
      always at least one (`"".split('-')` is `[""]`). */
  function Split(s: string, sep: char): (parts: seq<string>)
    ensures 0 < |parts|
  {
    if s == [] then [""]
    else
      var rest := Split(s[1..], sep);
      if s[0] == sep then [""] + rest else [[s[0]] + rest[0]] + rest[1..]
  }

  /** `parts.join(sep)`. */
  function Join(parts: seq<string>, sep: char): string
    requires 0 < |parts|
  {
    if |parts| == 1 then parts[0] else parts[0] + [sep] + Join(parts[1..], sep)
  }

  function CountChar(s: string, c: char): nat
  {
    if s == [] then 0 else (if s[0] == c then 1 else 0) + CountChar(s[1..], c)
  }

  /** Splitting yields one more piece than there are separators, no piece holds a
      separator, and joining the pieces gives back the string. */
  lemma {:induction false} SplitJoin(s: string, sep: char)
    ensures |Split(s, sep)| == CountChar(s, sep) + 1
    ensures forall i :: 0 <= i < |Split(s, sep)| ==> sep !in Split(s, sep)[i]
    ensures Join(Split(s, sep), sep) == s
  {
    if s != [] {
      SplitJoin(s[1..], sep);
      var rest := Split(s[1..], sep);
      if s[0] == sep {
        assert Split(s, sep)[1..] == rest;
        assert s == [sep] + s[1..];
      } else {
        var parts := Split(s, sep);
        assert parts[1..] == rest[1..];
        forall i | 0 <= i < |parts| ensures sep !in parts[i] {
          if i > 0 { assert parts[i] == rest[i]; }
        }
        if |rest| == 1 {
          assert s == [s[0]] + rest[0];
        } else {
          assert Join(rest, sep) == rest[0] + [sep] + Join(rest[1..], sep);
          assert s == ([s[0]] + rest[0]) + [sep] + Join(rest[1..], sep);
        }
      }
    }
  }

  /** A separator-free prefix glues onto the first piece. */
  lemma {:induction false} SplitPrefix(a: string, t: string, sep: char)
    requires sep !in a
    ensures Split(a + t, sep) == [a + Split(t, sep)[0]] + Split(t, sep)[1..]
  {
    if a != [] {
      assert (a + t)[0] == a[0] != sep;
      assert (a + t)[1..] == a[1..] + t;
      SplitPrefix(a[1..], t, sep);
      var st := Split(t, sep);
      var rest := Split(a[1..] + t, sep);
      assert rest[0] == a[1..] + st[0] && rest[1..] == st[1..];
      assert Split(a + t, sep) == [[a[0]] + rest[0]] + rest[1..];
      assert [a[0]] + (a[1..] + st[0]) == a + st[0];
    } else {
      assert a + t == t;
      var st := Split(t, sep);
      assert st == [st[0]] + st[1..];
      assert a + st[0] == st[0];
    }
  }

  /** Joining separator-free pieces and splitting again gives back the pieces. */
  lemma {:induction false} JoinSplit(parts: seq<string>, sep: char)
    requires 0 < |parts|
    requires forall i :: 0 <= i < |parts| ==> sep !in parts[i]
    ensures Split(Join(parts, sep), sep) == parts
  {
    if |parts| == 1 {
      SplitPrefix(parts[0], "", sep);
      assert parts[0] + "" == parts[0];
      assert parts == [parts[0]];
    } else {
      var tail := Join(parts[1..], sep);
      JoinSplit(parts[1..], sep);
      assert parts[0] + [sep] + tail == parts[0] + ([sep] + tail);
      SplitPrefix(parts[0], [sep] + tail, sep);
      assert ([sep] + tail)[0] == sep && ([sep] + tail)[1..] == tail;
      assert Split([sep] + tail, sep) == [""] + parts[1..];
      assert ([""] + parts[1..])[0] == "" && ([""] + parts[1..])[1..] == parts[1..];
      assert parts[0] + "" == parts[0];
      assert parts == [parts[0]] + parts[1..];
    }
  }

  // ---- parseDMY ----

  /** The positional parts of a "DD-MM-YYYY" string; a missing part is `None`
      (JavaScript's `undefined`). The day part always exists. */
  datatype DateParts = DateParts(d: string, m: Option<string>, y: Option<string>)

  /** `parseDMY(s)`: split on '-' and read pieces 0, 1 and 2, with no validation. */
  function ParseDMY(s: string): DateParts
  {
    var p := Split(s, '-');
    DateParts(p[0], if |p| > 1 then Some(p[1]) else None, if |p| > 2 then Some(p[2]) else None)
  }

  /** With exactly two '-', the three parts all exist and `d + "-" + m + "-" + y` is the
      original string. */
  lemma ParseDMYRoundTrip(s: string)
    requires CountChar(s, '-') == 2
    ensures ParseDMY(s).m.Some? && ParseDMY(s).y.Some?
    ensures ParseDMY(s).d + "-" + ParseDMY(s).m.value + "-" + ParseDMY(s).y.value == s
  {
    SplitJoin(s, '-');
    var p := Split(s, '-');
    assert Join(p[2..], '-') == p[2];
    assert Join(p[1..], '-') == p[1] + "-" + p[2];
  }

  /** With fewer than two '-', the year part is undefined (and the month part too with
      none), so no year selection can match it. */
  lemma ParseDMYMissingParts(s: string)
    ensures CountChar(s, '-') < 2 ==> ParseDMY(s).y == None
    ensures CountChar(s, '-') == 0 ==> ParseDMY(s).m == None && ParseDMY(s).d == s
  {
    SplitJoin(s, '-');
  }

  /** Reading back a date written from three dash-free parts gives those parts. */
  lemma ParseDMYOfParts(d: string, m: string, y: string)
    requires '-' !in d && '-' !in m && '-' !in y
    ensures ParseDMY(d + "-" + m + "-" + y) == DateParts(d, Some(m), Some(y))
  {
    var parts := [d, m, y];
    JoinSplit(parts, '-');
    assert Join(parts[2..], '-') == y;
    assert Join(parts[1..], '-') == m + "-" + y;
    assert Join(parts, '-') == d + "-" + m + "-" + y;
  }

  // ---- parseInt ----

  /** The longest prefix of s made of decimal digits. */
  function LeadingDigits(s: string): (ds: string)
    ensures AllDigits(ds)
  {
    if s == [] || !IsDigit(s[0]) then [] else [s[0]] + LeadingDigits(s[1..])
  }

  /** The number a string of decimal digits denotes. */
  function DigitsValue(ds: string): nat
    requires AllDigits(ds)
  {
    if ds == [] then 0 else DigitsValue(ds[..|ds| - 1]) * 10 + DigitValue(ds[|ds| - 1])
  }

  /** `parseInt(s, 10)`: an optional sign, then the leading decimal digits; `None` stands
      for `NaN` (no digit at all). Leading white space is not modelled. */
  function ParseInt(s: string): Option<int>
  {
    var signed := |s| > 0 && (s[0] == '-' || s[0] == '+');
    var ds := LeadingDigits(if signed then s[1..] else s);
    if ds == [] then None
    else
      var v: int := DigitsValue(ds);
      Some(if signed && s[0] == '-' then -v else v)
  }

  /** `parseInt(p, 10)` of a split part that may be `undefined` (`parseInt(undefined)` is NaN). */
  function ParsePart(p: Option<string>): Option<int>
  {
    match p
    case None => None
    case Some(s) => ParseInt(s)
  }

  /** The digits read are a prefix of s, and s does not go on with a digit. */
  lemma {:induction false} LeadingDigitsPrefix(s: string)
    ensures LeadingDigits(s) <= s
    ensures |LeadingDigits(s)| < |s| ==> !IsDigit(s[|LeadingDigits(s)|])
  {
    if s != [] && IsDigit(s[0]) {
      LeadingDigitsPrefix(s[1..]);
      assert s == [s[0]] + s[1..];
    }
  }

  lemma {:induction false} LeadingDigitsAll(s: string)
    requires AllDigits(s)
    ensures LeadingDigits(s) == s
  {
    if s != [] {
      LeadingDigitsAll(s[1..]);
      assert s == [s[0]] + s[1..];
    }
  }

  lemma {:induction false} DigitsValueOfNat(n: nat)
    ensures AllDigits(NatToString(n)) && DigitsValue(NatToString(n)) == n
  {
    NatToStringShape(n);
    if n >= 10 {
      DigitsValueOfNat(n / 10);
      var s := NatToString(n);
      assert s[..|s| - 1] == NatToString(n / 10);
    }
  }

  lemma ParseDigits(ds: string)
    requires ds != [] && AllDigits(ds)
    ensures ParseInt(ds) == Some(DigitsValue(ds) as int)
  {
    LeadingDigitsAll(ds);
    assert IsDigit(ds[0]);
  }

  lemma ParseMinusDigits(ds: string)
    requires ds != [] && AllDigits(ds)
    ensures ParseInt("-" + ds) == Some(-(DigitsValue(ds) as int))
  {
    LeadingDigitsAll(ds);
    var s := "-" + ds;
    assert s[0] == '-' && s[1..] == ds;
    assert LeadingDigits(s[1..]) == ds;
  }

  /** parseInt reads back what String(i) writes. */
  lemma ParseIntOfString(i: int)
    ensures ParseInt(IntToString(i)) == Some(i)
  {
    var n: nat := if i < 0 then -i else i;
    DigitsValueOfNat(n);
    if i < 0 {
      ParseMinusDigits(NatToString(n));
    } else {
      ParseDigits(NatToString(n));
    }
  }

  /** String(i) is one-to-one, so distinct years give distinct option values. */
  lemma IntToStringInjective(i: int, j: int)
    requires IntToString(i) == IntToString(j)
    ensures i == j
  {
    ParseIntOfString(i);
    ParseIntOfString(j);
  }
}
