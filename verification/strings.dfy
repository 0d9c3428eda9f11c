/** Character-level helpers: decimal digits, JavaScript's `parseInt` and
    `split`, Python's string ordering, and the two month-string
    formats the backend and the card build. */
module Strings {
  import opened Base

  predicate IsDigit(c: char) {
    '0' <= c <= '9'
  }

  predicate AllDigits(s: string) {
    forall i :: 0 <= i < |s| ==> IsDigit(s[i])
  }

  function DigitValue(c: char): (d: nat)
    requires IsDigit(c)
    ensures d < 10
  {
    c as int - '0' as int
  }

  function DigitChar(d: nat): (c: char)
    requires d < 10
    ensures IsDigit(c) && DigitValue(c) == d
  {
    ('0' as int + d) as char
  }

  /** Decimal rendering of a natural number, as Python's `str` and
      JavaScript's template literals produce it. */
  function NatToString(n: nat): (s: string)
    ensures |s| >= 1 && AllDigits(s)
    ensures n < 10 <==> |s| == 1
  {
    if n < 10 then [DigitChar(n)] else NatToString(n / 10) + [DigitChar(n % 10)]
  }

  /** The value of a string of decimal digits (most significant first). */
  function DigitsValue(s: string): nat
    requires AllDigits(s)
  {
    if s == [] then 0 else 10 * DigitsValue(s[..|s| - 1]) + DigitValue(s[|s| - 1])
  }

  lemma {:induction false} DigitsValueOfNatToString(n: nat)
    ensures DigitsValue(NatToString(n)) == n
  {
    if n >= 10 {
      var s := NatToString(n);
      assert s[..|s| - 1] == NatToString(n / 10);
      DigitsValueOfNatToString(n / 10);
    }
  }

  /** Length of the longest all-digit prefix of `s`. */
  function LeadingDigits(s: string): (k: nat)
    ensures k <= |s| && AllDigits(s[..k])
    ensures k < |s| ==> !IsDigit(s[k])
  {
    if s == [] || !IsDigit(s[0]) then 0
    else
      var k := 1 + LeadingDigits(s[1..]);
      assert s[..k] == [s[0]] + s[1..][..k - 1];
      k
  }

  /** JavaScript's `parseInt(s, 10)` on strings without leading blanks or
      sign: the value of the leading digits, or `None` (NaN) when `s` does
      not start with a digit. */
  function ParseInt(s: string): (r: Option<nat>)
    ensures r.None? <==> (|s| == 0 || !IsDigit(s[0]))
  {
    var k := LeadingDigits(s);
    if k == 0 then None else Some(DigitsValue(s[..k]))
  }

  lemma {:induction false} LeadingDigitsOfDigits(s: string, rest: string)
    requires AllDigits(s)
    requires rest == [] || !IsDigit(rest[0])
    ensures LeadingDigits(s + rest) == |s|
  {
    if s != [] {
      assert (s + rest)[1..] == s[1..] + rest;
      LeadingDigitsOfDigits(s[1..], rest);
    }
  }

  lemma ParseIntOfDigits(s: string, rest: string)
    requires |s| > 0 && AllDigits(s)
    requires rest == [] || !IsDigit(rest[0])
    ensures ParseInt(s + rest) == Some(DigitsValue(s))
  {
    LeadingDigitsOfDigits(s, rest);
    assert (s + rest)[..|s|] == s;
  }

  /** Index of the first `c` in `s`, or `|s|` when there is none. */
  function IndexOf(s: string, c: char): (i: nat)
    ensures i <= |s|
    ensures i < |s| ==> s[i] == c
    ensures forall j :: 0 <= j < i ==> s[j] != c
  {
    if s == [] then 0 else if s[0] == c then 0 else 1 + IndexOf(s[1..], c)
  }

  /** JavaScript's `s.split(sep)` for a one-character separator. */
  function Split(s: string, sep: char): (parts: seq<string>)
    ensures |parts| >= 1
    ensures forall k :: 0 <= k < |parts| ==> sep !in parts[k]
    decreases |s|
  {
    var i := IndexOf(s, sep);
    if i == |s| then [s] else [s[..i]] + Split(s[i + 1..], sep)
  }

  lemma SplitNoSeparator(s: string, sep: char)
    requires sep !in s
    ensures Split(s, sep) == [s]
  {
  }

  lemma SplitCons(a: string, sep: char, rest: string)
    requires sep !in a
    ensures Split(a + [sep] + rest, sep) == [a] + Split(rest, sep)
  {
    var s := a + [sep] + rest;
    var i := IndexOf(s, sep);
    assert s[|a|] == sep;
    assert forall j :: 0 <= j < |a| ==> s[j] == a[j];
    assert i == |a|;
    assert s[..i] == a;
    assert s[i + 1..] == rest;
  }

  /** Python's `str.startswith`. */
  predicate StartsWith(s: string, prefix: string) {
    |prefix| <= |s| && s[..|prefix|] == prefix
  }

  /** Strict lexicographic order by code point, the order of Python's `<`
      on `str`. */
  predicate Less(a: string, b: string)
    decreases |a|
  {
    if |a| == 0 then |b| > 0
    else if |b| == 0 then false
    else if a[0] != b[0] then a[0] < b[0]
    else Less(a[1..], b[1..])
  }

  lemma {:induction false} LessIrreflexive(a: string)
    ensures !Less(a, a)
  {
    if |a| > 0 {
      LessIrreflexive(a[1..]);
    }
  }

  lemma {:induction false} LessAsymmetric(a: string, b: string)
    requires Less(a, b)
    ensures !Less(b, a)
    decreases |a|
  {
    if |a| > 0 && |b| > 0 && a[0] == b[0] {
      LessAsymmetric(a[1..], b[1..]);
    }
  }

  lemma {:induction false} LessTransitive(a: string, b: string, c: string)
    requires Less(a, b) && Less(b, c)
    ensures Less(a, c)
    decreases |a|
  {
    if |a| > 0 && a[0] == b[0] && b[0] == c[0] {
      LessTransitive(a[1..], b[1..], c[1..]);
    }
  }

  lemma {:induction false} LessTotal(a: string, b: string)
    ensures a == b || Less(a, b) || Less(b, a)
    decreases |a|
  {
    if |a| > 0 && |b| > 0 && a[0] == b[0] {
      LessTotal(a[1..], b[1..]);
      if a[1..] == b[1..] {
        assert a == [a[0]] + a[1..] && b == [b[0]] + b[1..];
      }
    }
  }

  /** Zero-padded two-digit rendering: JavaScript's `padStart(2, '0')` and
      Python's `{:02d}` on a natural number. */
  function Pad2(n: nat): (s: string)
    ensures AllDigits(s) && |s| >= 2
    ensures n < 100 ==> |s| == 2
  {
    if n < 10 then ['0', DigitChar(n)] else NatToString(n)
  }

  lemma Pad2Value(n: nat)
    ensures DigitsValue(Pad2(n)) == n
  {
    if n < 10 {
      var s := Pad2(n);
      assert s[..1] == ['0'] && s[..1][..0] == [];
      assert DigitsValue(['0']) == 0;
      assert DigitsValue(s) == 10 * DigitsValue(['0']) + DigitValue(s[1]);
    } else {
      DigitsValueOfNatToString(n);
    }
  }

  /** The card's current-month string `YYYY-MM` (month 1-12). */
  function MonthKey(year: nat, month: nat): string {
    NatToString(year) + "-" + Pad2(month)
  }

  /** The backend's month string `YYYY-MM-01` (month 1-12). */
  function MonthStartDate(year: nat, month: nat): string {
    MonthKey(year, month) + "-01"
  }

  lemma AllDigitsHasNoDash(s: string)
    requires AllDigits(s)
    ensures '-' !in s
  {
    forall i | 0 <= i < |s|
      ensures s[i] != '-'
    {
    }
  }

  lemma {:induction false} SplitMonthKey(year: nat, month: nat)
    ensures Split(MonthKey(year, month), '-') == [NatToString(year), Pad2(month)]
  {
    var y, m := NatToString(year), Pad2(month);
    AllDigitsHasNoDash(y);
    AllDigitsHasNoDash(m);
    assert MonthKey(year, month) == y + ['-'] + m;
    SplitCons(y, '-', m);
    SplitNoSeparator(m, '-');
  }

  lemma {:induction false} SplitMonthStartDate(year: nat, month: nat)
    ensures Split(MonthStartDate(year, month), '-') == [NatToString(year), Pad2(month), "01"]
  {
    var y, m := NatToString(year), Pad2(month);
    AllDigitsHasNoDash(y);
    AllDigitsHasNoDash(m);
    assert MonthStartDate(year, month) == y + ['-'] + (m + ['-'] + "01");
    SplitCons(y, '-', m + ['-'] + "01");
    SplitCons(m, '-', "01");
    SplitNoSeparator("01", '-');
  }

  /** The card's `YYYY-MM` key never equals a backend `YYYY-MM-01` string,
      whatever the two dates: the first splits into two fields, the second
      into three. */
  lemma MonthKeyNeverMonthStartDate(year: nat, month: nat, year': nat, month': nat)
    ensures MonthKey(year, month) != MonthStartDate(year', month')
  {
    SplitMonthKey(year, month);
    SplitMonthStartDate(year', month');
  }

  /** Parsing the fields of a backend month string recovers its year and
      month, as the calendar's `parseInt(parts[i], 10)` does. */
  lemma ParseMonthStartDate(year: nat, month: nat)
    ensures var parts := Split(MonthStartDate(year, month), '-');
      |parts| == 3 && ParseInt(parts[0]) == Some(year) && ParseInt(parts[1]) == Some(month)
  {
    SplitMonthStartDate(year, month);
    ParseIntOfDigits(NatToString(year), []);
    assert NatToString(year) + [] == NatToString(year);
    DigitsValueOfNatToString(year);
    ParseIntOfDigits(Pad2(month), []);
    assert Pad2(month) + [] == Pad2(month);
    Pad2Value(month);
  }

  /** Parsing the fields of the card's `YYYY-MM` string recovers its year
      and month. */
  lemma ParseMonthKey(year: nat, month: nat)
    ensures var parts := Split(MonthKey(year, month), '-');
      |parts| == 2 && ParseInt(parts[0]) == Some(year) && ParseInt(parts[1]) == Some(month)
  {
    SplitMonthKey(year, month);
    ParseIntOfDigits(NatToString(year), []);
    assert NatToString(year) + [] == NatToString(year);
    DigitsValueOfNatToString(year);
    ParseIntOfDigits(Pad2(month), []);
    assert Pad2(month) + [] == Pad2(month);
    Pad2Value(month);
  }
}
