/**
 * The date normaliser of the scraper: free-form release dates to `MM/DD/YYYY`.
 *
 * Three shapes are recognised, in this order: slash dates `M/D/Y` (a two-digit
 * year is windowed at 77), `Month D, YYYY` and `D Month YYYY`. Only the two
 * month-name shapes are checked against the Gregorian calendar.
 */
module DateUtils {
  import opened Options
  import opened Strings

  /** Two-digit years from here on are read as 19xx, lower ones as 20xx. */
  const CenturyPivot: nat := 77

  /** The three-letter keys of the month map, in calendar order. */
  const ShortMonths: seq<string> :=
    ["jan", "feb", "mar", "apr", "may", "jun", "jul", "aug", "sep", "oct", "nov", "dec"]

  /** The optional tails of the month regex, `Jan(?:uary)?` and so on; "may" has none. */
  const MonthSuffixes: seq<string> :=
    ["uary", "ruary", "ch", "il", "", "e", "y", "ust", "tember", "ober", "ember", "ember"]

  /** The month map, three-letter lower-case key to two-digit month number. */
  const MonthMap: map<string, string> :=
    map["jan" := "01", "feb" := "02", "mar" := "03", "apr" := "04",
        "may" := "05", "jun" := "06", "jul" := "07", "aug" := "08",
        "sep" := "09", "oct" := "10", "nov" := "11", "dec" := "12"]

  // ------------------------------------------------------------ slash path

  function Zeros(n: nat): string {
    seq(n, _ => '0')
  }

  /** Python's `s.zfill(width)`: left-padded with '0' to the width; the zeros go
      after a leading sign. */
  function ZFill(s: string, width: nat): (r: string)
    ensures |r| == if |s| >= width then |s| else width
    ensures s == [] || (s[0] != '+' && s[0] != '-') ==>
      r[|r| - |s|..] == s && forall i :: 0 <= i < |r| - |s| ==> r[i] == '0'
  {
    if |s| >= width then s
    else if s != [] && (s[0] == '+' || s[0] == '-') then [s[0]] + Zeros(width - |s|) + s[1..]
    else Zeros(width - |s|) + s
  }

  /** Python's `int(y)` on a two-character string: surrounding whitespace and a
      sign are accepted; anything else raises, which the model writes as None. */
  function IntOfTwoChars(y: string): Option<int>
    requires |y| == 2
  {
    if IsDigit(y[0]) && IsDigit(y[1]) then Some(10 * DigitValue(y[0]) + DigitValue(y[1]))
    else if IsSpace(y[0]) && IsDigit(y[1]) then Some(DigitValue(y[1]))
    else if IsDigit(y[0]) && IsSpace(y[1]) then Some(DigitValue(y[0]))
    else if y[0] == '+' && IsDigit(y[1]) then Some(DigitValue(y[1]))
    else if y[0] == '-' && IsDigit(y[1]) then Some(-(DigitValue(y[1]) as int))
    else None
  }

  /** The slash path on the three parts of the split: a two-character year is
      windowed, month and day are zero-filled, nothing is checked against the calendar. */
  function SlashDate(month: string, day: string, year: string): Option<string> {
    if |year| == 2 then
      match IntOfTwoChars(year)
      case None => None
      case Some(v) =>
        Some(ZFill(month, 2) + "/" + ZFill(day, 2) + "/" + ((if v >= CenturyPivot then "19" else "20") + year))
    else
      Some(ZFill(month, 2) + "/" + ZFill(day, 2) + "/" + year)
  }

  /** The input takes the slash path: it holds a '/' and splits into exactly three parts. */
  predicate IsSlashShape(s: string) {
    '/' in s && |Split(s, '/')| == 3
  }

  // ------------------------------------------------------------ month-name path

  /** The groups of a month-name match: the month as written, the day digits, the year digits. */
  datatype NamedMatch = NamedMatch(month: string, day: string, year: string)

  /** Index of the month whose three-letter key starts at index p, case-insensitively. */
  function MonthIndexFrom(s: string, p: nat, m: nat): (r: Option<nat>)
    requires m <= 12
    ensures r.Some? ==> m <= r.value < 12 && MatchesIgnoreCaseAt(s, p, ShortMonths[r.value])
    ensures r.None? ==> forall k :: m <= k < 12 ==> !MatchesIgnoreCaseAt(s, p, ShortMonths[k])
    decreases 12 - m
  {
    if m == 12 then None
    else if MatchesIgnoreCaseAt(s, p, ShortMonths[m]) then Some(m)
    else MonthIndexFrom(s, p, m + 1)
  }

  /** The alternatives of the month group for month m, in the order the regex tries them. */
  function MonthForms(m: nat): seq<string>
    requires m < 12
  {
    if MonthSuffixes[m] == [] then [ShortMonths[m]]
    else [ShortMonths[m] + MonthSuffixes[m], ShortMonths[m]]
  }

  /** Skips the optional '.' after a month name. */
  function AfterDot(s: string, e: nat): (e1: nat)
    requires e <= |s|
    ensures e <= e1 <= |s|
  {
    if e < |s| && s[e] == '.' then e + 1 else e
  }

  /** `\.?\s+(\d{1,2})(?:,|\s)\s*(\d{4})` from index e: the day and the year. */
  function DayYearAfter(s: string, e: nat): Option<(string, string)>
    requires e <= |s|
  {
    var e1 := AfterDot(s, e);
    var j := e1 + SpaceRun(s, e1);
    var n := DigitRun(s, j, 2);
    var k := j + n;
    if j == e1 || n == 0 || k == |s| || !(s[k] == ',' || IsSpace(s[k])) then None
    else
      var x := k + 1 + SpaceRun(s, k + 1);
      if FourDigitsAt(s, x) then Some((s[j..k], s[x..x + 4])) else None
  }

  /** `\.?\s+(\d{4})` from index e: the year. */
  function YearAfter(s: string, e: nat): Option<string>
    requires e <= |s|
  {
    var e1 := AfterDot(s, e);
    var x := e1 + SpaceRun(s, e1);
    if x == e1 || !FourDigitsAt(s, x) then None else Some(s[x..x + 4])
  }

  /** Pattern 1, `Month D, YYYY`, tried at index p with the given month alternatives. */
  function MonthFirstForms(s: string, p: nat, forms: seq<string>): Option<NamedMatch>
    requires p <= |s|
  {
    if forms == [] then None
    else if MatchesIgnoreCaseAt(s, p, forms[0]) && DayYearAfter(s, p + |forms[0]|).Some? then
      var dy := DayYearAfter(s, p + |forms[0]|).value;
      Some(NamedMatch(s[p..p + |forms[0]|], dy.0, dy.1))
    else MonthFirstForms(s, p, forms[1..])
  }

  /** Pattern 2, `D Month YYYY`, with the day ending at q, tried with the given month alternatives. */
  function DayFirstForms(s: string, day: string, q: nat, forms: seq<string>): Option<NamedMatch>
    requires q <= |s|
  {
    if forms == [] then None
    else if MatchesIgnoreCaseAt(s, q, forms[0]) && YearAfter(s, q + |forms[0]|).Some? then
      Some(NamedMatch(s[q..q + |forms[0]|], day, YearAfter(s, q + |forms[0]|).value))
    else DayFirstForms(s, day, q, forms[1..])
  }

  /** Pattern 1 anchored at index p. */
  function MonthFirstAt(s: string, p: nat): Option<NamedMatch>
    requires p <= |s|
  {
    match MonthIndexFrom(s, p, 0)
    case None => None
    case Some(m) => MonthFirstForms(s, p, MonthForms(m))
  }

  /** Pattern 2 anchored at index p: `(\d{1,2})\s+Month\.?\s+(\d{4})`. */
  function DayFirstAt(s: string, p: nat): (r: Option<NamedMatch>)
    requires p <= |s|
    ensures r.Some? ==> Lower(Prefix3(r.value.month)) in MonthMap
  {
    var n := DigitRun(s, p, 2);
    var q := p + n + SpaceRun(s, p + n);
    if n == 0 || q == p + n then None
    else
      MonthAfterDayKey(s, s[p..p + n], q);
      MonthAfterDay(s, s[p..p + n], q)
  }

  /** The month and year of pattern 2, the month starting at index q. */
  function MonthAfterDay(s: string, day: string, q: nat): Option<NamedMatch>
    requires q <= |s|
  {
    match MonthIndexFrom(s, q, 0)
    case None => None
    case Some(m) => DayFirstForms(s, day, q, MonthForms(m))
  }

  /** Pattern 2 (when dayFirst) or pattern 1, anchored at index p. */
  function PatternAt(s: string, p: nat, dayFirst: bool): Option<NamedMatch>
    requires p <= |s|
  {
    if dayFirst then DayFirstAt(s, p) else MonthFirstAt(s, p)
  }

  /** `re.search`: the match at the leftmost index where the pattern matches. */
  function SearchFrom(s: string, p: nat, dayFirst: bool): Option<NamedMatch>
    requires p <= |s|
    decreases |s| - p
  {
    var here := PatternAt(s, p, dayFirst);
    if here.Some? then here
    else if p == |s| then None
    else SearchFrom(s, p + 1, dayFirst)
  }

  /** The groups of the month-name path: pattern 1 anywhere, else pattern 2 anywhere. */
  function FirstNamedMatch(s: string): Option<NamedMatch> {
    var m1 := SearchFrom(s, 0, false);
    if m1.Some? then m1 else SearchFrom(s, 0, true)
  }

  // ------------------------------------------------------------ calendar

  predicate IsLeapYear(y: int) {
    y % 4 == 0 && (y % 100 != 0 || y % 400 == 0)
  }

  function DaysInMonth(m: int, y: int): int
    requires 1 <= m <= 12
  {
    if m == 2 then (if IsLeapYear(y) then 29 else 28)
    else if m == 4 || m == 6 || m == 9 || m == 11 then 30
    else 31
  }

  /** What `datetime.strptime(..., "%m/%d/%Y")` accepts: a month, a day of that
      month, and a year of at least 1. */
  predicate CalendarValid(m: int, d: int, y: int) {
    1 <= m <= 12 && 1 <= d <= DaysInMonth(m, y) && 1 <= y
  }

  /** The value of a string of ASCII digits. */
  function Number(s: string): nat
    requires AllDigits(s)
  {
    if s == [] then 0 else 10 * Number(s[..|s| - 1]) + DigitValue(s[|s| - 1])
  }

  /** Two digits, '/', two digits, '/', four digits. */
  predicate IsCanonicalDate(r: string) {
    |r| == 10 && r[2] == '/' && r[5] == '/'
    && AllDigits(r[..2]) && AllDigits(r[3..5]) && AllDigits(r[6..])
  }

  /** A canonical date that names a real Gregorian day. */
  predicate IsRealDate(r: string) {
    IsCanonicalDate(r) && CalendarValid(Number(r[..2]), Number(r[3..5]), Number(r[6..]))
  }

  function Prefix3(s: string): string {
    if |s| >= 3 then s[..3] else s
  }

  /** The named-month tail of `parse_date`: look the month up by its first three
      letters, zero-fill the day, and reject a date the calendar does not have. */
  function DateOfMatch(m: NamedMatch): Option<string> {
    var key := Lower(Prefix3(m.month));
    if key !in MonthMap then None
    else
      var date := MonthMap[key] + "/" + ZFill(m.day, 2) + "/" + m.year;
      if IsRealDate(date) then Some(date) else None
  }

  /** The month-name path of `parse_date`. */
  function NamedMonthDate(s: string): (r: Option<string>)
    ensures r.Some? ==> IsRealDate(r.value)
    ensures FirstNamedMatch(s).None? ==> r.None?
    ensures FirstNamedMatch(s).Some? ==>
      var m := FirstNamedMatch(s).value;
      Lower(Prefix3(m.month)) in MonthMap &&
      var d := MonthMap[Lower(Prefix3(m.month))] + "/" + ZFill(m.day, 2) + "/" + m.year;
      r == if IsRealDate(d) then Some(d) else None
  {
    MonthKeyFound(s);
    match FirstNamedMatch(s)
    case None => None
    case Some(m) => DateOfMatch(m)
  }

  // ------------------------------------------------------------ parse_date

  /** `parse_date`: a total function from strings to an optional `MM/DD/YYYY`.
      Every result is three '/'-separated parts; a result of the month-name path
      is a real calendar date in canonical form. */
  function ParseDate(dateStr: string): (r: Option<string>)
    ensures r.Some? ==> |Split(r.value, '/')| == 3 && r.value != ""
    ensures r.Some? && !IsSlashShape(Strip(dateStr)) ==> IsRealDate(r.value)
  {
    var s := Strip(dateStr);
    if IsSlashShape(s) then
      var parts := Split(s, '/');
      var r := SlashDate(parts[0], parts[1], parts[2]);
      SlashResultParts(parts[0], parts[1], parts[2]);
      r
    else
      var r := NamedMonthDate(s);
      CanonicalDateParts(if r.Some? then r.value else "01/01/2000");
      r
  }

  // ------------------------------------------------------------ lemmas

  lemma ZFillNoSlash(s: string, width: nat)
    requires '/' !in s
    ensures '/' !in ZFill(s, width)
  {
  }

  /** Three '/'-free parts joined by '/' split back into those three parts. */
  lemma {:induction false} SplitThree(a: string, b: string, c: string)
    requires '/' !in a && '/' !in b && '/' !in c
    ensures Split(a + "/" + b + "/" + c, '/') == [a, b, c]
  {
    var parts := [a, b, c];
    assert Join("/", parts[2..]) == c;
    assert Join("/", parts[1..]) == b + "/" + c;
    assert Join("/", parts) == a + "/" + b + "/" + c;
    SplitJoin(parts, '/');
  }

  lemma SlashResultParts(month: string, day: string, year: string)
    requires '/' !in month && '/' !in day && '/' !in year
    ensures SlashDate(month, day, year).Some? ==> |Split(SlashDate(month, day, year).value, '/')| == 3
  {
    ZFillNoSlash(month, 2);
    ZFillNoSlash(day, 2);
    if |year| == 2 && IntOfTwoChars(year).Some? {
      var century := if IntOfTwoChars(year).value >= CenturyPivot then "19" else "20";
      assert '/' !in century + year;
      SplitThree(ZFill(month, 2), ZFill(day, 2), century + year);
    } else if |year| != 2 {
      SplitThree(ZFill(month, 2), ZFill(day, 2), year);
    }
  }

  lemma CanonicalDateParts(r: string)
    ensures IsCanonicalDate(r) ==> |Split(r, '/')| == 3
  {
    if !IsCanonicalDate(r) { return; }
    var a, b, c := r[..2], r[3..5], r[6..];
    assert r == a + "/" + b + "/" + c;
    assert forall i :: 0 <= i < 2 ==> a[i] != '/' by { assert AllDigits(a); }
    assert forall i :: 0 <= i < 2 ==> b[i] != '/' by { assert AllDigits(b); }
    assert forall i :: 0 <= i < |c| ==> c[i] != '/' by { assert AllDigits(c); }
    SplitThree(a, b, c);
  }

  /** An input of three '/'-free parts takes the slash path with exactly those parts. */
  lemma SlashShapeParts(month: string, day: string, year: string)
    requires '/' !in month && '/' !in day && '/' !in year
    requires month == [] || !IsSpace(month[0])
    requires year == [] || !IsSpace(year[|year| - 1])
    ensures ParseDate(month + "/" + day + "/" + year) == SlashDate(month, day, year)
  {
    SlashTextTrimmed(month, day, year);
    SplitThree(month, day, year);
    SlashTextShape(month, day, year);
  }

  /** Three parts joined by '/' with no blank at either end are already stripped. */
  lemma SlashTextTrimmed(month: string, day: string, year: string)
    requires month == [] || !IsSpace(month[0])
    requires year == [] || !IsSpace(year[|year| - 1])
    ensures Strip(month + "/" + day + "/" + year) == month + "/" + day + "/" + year
  {
    var s := month + "/" + day + "/" + year;
    assert s[0] == (if month == [] then '/' else month[0]);
    assert s[|s| - 1] == (if year == [] then '/' else year[|year| - 1]);
    StripOfTrimmed(s);
  }

  /** Three '/'-free parts joined by '/' have the slash shape. */
  lemma SlashTextShape(month: string, day: string, year: string)
    requires '/' !in month && '/' !in day && '/' !in year
    ensures IsSlashShape(month + "/" + day + "/" + year)
  {
    var s := month + "/" + day + "/" + year;
    assert s[|month|] == '/';
    SplitThree(month, day, year);
  }

  lemma TwoDigitValue(year: string)
    requires |year| == 2 && AllDigits(year)
    ensures IntOfTwoChars(year) == Some(Number(year))
  {
    assert year[..|year| - 1] == year[..1];
    assert year[..1][..0] == [];
    assert Number(year[..1]) == DigitValue(year[0]);
  }

  /** The slash path: a two-digit year is windowed at 77, any other year passes
      through unchanged, month and day are zero-filled, and no calendar check is made. */
  lemma SlashPath(month: string, day: string, year: string)
    requires '/' !in month && '/' !in day && '/' !in year
    requires month == [] || !IsSpace(month[0])
    requires year == [] || !IsSpace(year[|year| - 1])
    ensures |year| != 2 ==>
      ParseDate(month + "/" + day + "/" + year) == Some(ZFill(month, 2) + "/" + ZFill(day, 2) + "/" + year)
    ensures |year| == 2 && AllDigits(year) ==>
      ParseDate(month + "/" + day + "/" + year)
        == Some(ZFill(month, 2) + "/" + ZFill(day, 2) + "/" + ((if Number(year) >= CenturyPivot then "19" else "20") + year))
  {
    SlashShapeParts(month, day, year);
    if |year| == 2 && AllDigits(year) {
      TwoDigitValue(year);
    }
  }

  /** A two-digit year at or above the pivot lands in the 1900s. */
  lemma SlashDateExample97()
    ensures SlashDate("1", "2", "97") == Some("01/02/1997")
  {
    assert Number("97") == 97 by { assert "97"[..1] == "9"; assert "9"[..0] == ""; }
    assert AllDigits("97");
    TwoDigitValue("97");
    assert ZFill("1", 2) == "01";
    assert ZFill("2", 2) == "02";
    assert IntOfTwoChars("97") == Some(97);
    assert "01" + "/" + "02" + "/" + ("19" + "97") == "01/02/1997";
  }

  /** "1/2/97" is read as the second of January 1997. */
  lemma SlashExample97()
    ensures ParseDate("1/2/97") == Some("01/02/1997")
  {
    assert "1/2/97" == "1" + "/" + "2" + "/" + "97";
    SlashShapeParts("1", "2", "97");
    SlashDateExample97();
  }

  /** A two-digit year below the pivot lands in the 2000s. */
  lemma SlashDateExample05()
    ensures SlashDate("12", "31", "05") == Some("12/31/2005")
  {
    assert Number("05") == 5 by { assert "05"[..1] == "0"; assert "0"[..0] == ""; }
    assert AllDigits("05");
    TwoDigitValue("05");
    assert ZFill("12", 2) == "12";
    assert ZFill("31", 2) == "31";
    assert IntOfTwoChars("05") == Some(5);
    assert "12" + "/" + "31" + "/" + ("20" + "05") == "12/31/2005";
  }

  /** "12/31/05" is read as the last day of 2005. */
  lemma SlashExample05()
    ensures ParseDate("12/31/05") == Some("12/31/2005")
  {
    assert "12/31/05" == "12" + "/" + "31" + "/" + "05";
    SlashShapeParts("12", "31", "05");
    SlashDateExample05();
  }

  // ------------------------------------------------------------ the month key

  predicate IsLowerKey(k: string) {
    |k| == 3 && 'a' <= k[0] <= 'z' && 'a' <= k[1] <= 'z' && 'a' <= k[2] <= 'z'
  }

  lemma ShortKeys(m: nat)
    requires m < 12
    ensures IsLowerKey(ShortMonths[m]) && ShortMonths[m] in MonthMap
  {
  }

  lemma LowerKey(k: string)
    requires IsLowerKey(k)
    ensures Lower(k) == k
  {
  }

  /** The first three letters of text matched against an alternative that
      begins with a lower-case key fold to that key. */
  lemma MatchedKey(s: string, p: nat, f: string, key: string)
    requires MatchesIgnoreCaseAt(s, p, f) && |f| >= 3 && f[..3] == key && IsLowerKey(key)
    ensures Lower(Prefix3(s[p..p + |f|])) == key
  {
    var x := s[p..p + |f|];
    assert Lower(x) == Lower(f);
    assert Lower(x[..3]) == Lower(x)[..3];
    assert Lower(f)[..3] == Lower(f[..3]);
    LowerKey(key);
  }

  lemma {:induction false} MonthFirstFormsKey(s: string, p: nat, forms: seq<string>, key: string)
    requires p <= |s| && IsLowerKey(key)
    requires forall f :: f in forms ==> |f| >= 3 && f[..3] == key
    ensures MonthFirstForms(s, p, forms).Some? ==> Lower(Prefix3(MonthFirstForms(s, p, forms).value.month)) == key
  {
    if forms != [] {
      if MatchesIgnoreCaseAt(s, p, forms[0]) && DayYearAfter(s, p + |forms[0]|).Some? {
        MatchedKey(s, p, forms[0], key);
      } else {
        MonthFirstFormsKey(s, p, forms[1..], key);
      }
    }
  }

  lemma {:induction false} DayFirstFormsKey(s: string, day: string, q: nat, forms: seq<string>, key: string)
    requires q <= |s| && IsLowerKey(key)
    requires forall f :: f in forms ==> |f| >= 3 && f[..3] == key
    ensures DayFirstForms(s, day, q, forms).Some? ==> Lower(Prefix3(DayFirstForms(s, day, q, forms).value.month)) == key
  {
    if forms != [] {
      if MatchesIgnoreCaseAt(s, q, forms[0]) && YearAfter(s, q + |forms[0]|).Some? {
        MatchedKey(s, q, forms[0], key);
      } else {
        DayFirstFormsKey(s, day, q, forms[1..], key);
      }
    }
  }

  lemma MonthFormsKeyed(m: nat)
    requires m < 12
    ensures forall f :: f in MonthForms(m) ==> |f| >= 3 && f[..3] == ShortMonths[m]
    ensures IsLowerKey(ShortMonths[m]) && ShortMonths[m] in MonthMap
  {
    ShortKeys(m);
    assert (ShortMonths[m] + MonthSuffixes[m])[..3] == ShortMonths[m];
  }

  lemma MonthFirstAtKey(s: string, p: nat)
    requires p <= |s|
    ensures MonthFirstAt(s, p).Some? ==> Lower(Prefix3(MonthFirstAt(s, p).value.month)) in MonthMap
  {
    if MonthIndexFrom(s, p, 0).Some? {
      var m := MonthIndexFrom(s, p, 0).value;
      MonthFormsKeyed(m);
      MonthFirstFormsKey(s, p, MonthForms(m), ShortMonths[m]);
    }
  }

  lemma MonthAfterDayKey(s: string, day: string, q: nat)
    requires q <= |s|
    ensures MonthAfterDay(s, day, q).Some? ==> Lower(Prefix3(MonthAfterDay(s, day, q).value.month)) in MonthMap
  {
    if MonthIndexFrom(s, q, 0).Some? {
      var m := MonthIndexFrom(s, q, 0).value;
      MonthFormsKeyed(m);
      DayFirstFormsKey(s, day, q, MonthForms(m), ShortMonths[m]);
    }
  }

  lemma {:induction false} SearchFromKey(s: string, p: nat, dayFirst: bool)
    requires p <= |s|
    ensures SearchFrom(s, p, dayFirst).Some? ==> Lower(Prefix3(SearchFrom(s, p, dayFirst).value.month)) in MonthMap
    decreases |s| - p
  {
    MonthFirstAtKey(s, p);
    if p < |s| {
      SearchFromKey(s, p + 1, dayFirst);
    }
  }

  /** The month group of any match folds to a key of the month map, so the
      lookup `month_map[month[:3].lower()]` never raises. */
  lemma MonthKeyFound(s: string)
    ensures FirstNamedMatch(s).Some? ==> Lower(Prefix3(FirstNamedMatch(s).value.month)) in MonthMap
  {
    SearchFromKey(s, 0, false);
    SearchFromKey(s, 0, true);
  }

  // ------------------------------------------------------------ which match wins

  /** `re.search` from p returns the match at the leftmost index q where the pattern matches. */
  lemma {:induction false} SearchFromLeftmost(s: string, p: nat, q: nat, dayFirst: bool)
    requires p <= q <= |s| && PatternAt(s, q, dayFirst).Some?
    requires forall j :: p <= j < q ==> PatternAt(s, j, dayFirst).None?
    ensures SearchFrom(s, p, dayFirst) == PatternAt(s, q, dayFirst)
    decreases q - p
  {
    if p < q {
      SearchFromLeftmost(s, p + 1, q, dayFirst);
    }
  }

  /** `re.search` from p finds nothing when the pattern matches at no index from p on. */
  lemma {:induction false} SearchFromNone(s: string, p: nat, dayFirst: bool)
    requires p <= |s|
    requires forall j :: p <= j <= |s| ==> PatternAt(s, j, dayFirst).None?
    ensures SearchFrom(s, p, dayFirst).None?
    decreases |s| - p
  {
    if p < |s| {
      SearchFromNone(s, p + 1, dayFirst);
    }
  }

  /** Pattern 1 decides wherever its leftmost match is, whatever pattern 2 matches, even further left. */
  lemma MonthFirstWins(s: string, p: nat)
    requires p <= |s| && MonthFirstAt(s, p).Some?
    requires forall j :: 0 <= j < p ==> MonthFirstAt(s, j).None?
    ensures FirstNamedMatch(s) == MonthFirstAt(s, p)
  {
    SearchFromLeftmost(s, 0, p, false);
  }

  /** Only when pattern 1 matches nowhere does the leftmost match of pattern 2 decide. */
  lemma DayFirstFallback(s: string, p: nat)
    requires forall j :: 0 <= j <= |s| ==> MonthFirstAt(s, j).None?
    requires p <= |s| && DayFirstAt(s, p).Some?
    requires forall j :: 0 <= j < p ==> DayFirstAt(s, j).None?
    ensures FirstNamedMatch(s) == DayFirstAt(s, p)
  {
    SearchFromNone(s, 0, false);
    SearchFromLeftmost(s, 0, p, true);
  }

  /** When neither pattern matches anywhere, the month-name path gives None. */
  lemma NoNamedMatch(s: string)
    requires forall j :: 0 <= j <= |s| ==> MonthFirstAt(s, j).None? && DayFirstAt(s, j).None?
    ensures NamedMonthDate(s).None?
  {
    SearchFromNone(s, 0, false);
    SearchFromNone(s, 0, true);
  }

  /** An input that is not three '/'-separated parts (no '/', or a '/' but two or
      four or more parts) falls through to the month-name path. */
  lemma NotSlashFallsThrough(dateStr: string)
    requires '/' !in Strip(dateStr) || |Split(Strip(dateStr), '/')| != 3
    ensures ParseDate(dateStr) == NamedMonthDate(Strip(dateStr))
  {
  }

  // ------------------------------------------------------------ month-name examples

  /** A key of the month map matches, case-insensitively, where its letters stand. */
  lemma KeyMatchesAt(s: string, p: nat, m: nat)
    requires m < 12 && p + 3 <= |s| && Lower(s[p..p + 3]) == ShortMonths[m]
    ensures MatchesIgnoreCaseAt(s, p, ShortMonths[m])
  {
    ShortKeys(m);
    LowerKey(ShortMonths[m]);
  }

  /** A key of the month map does not match where other letters stand. */
  lemma KeyMissesAt(s: string, p: nat, m: nat)
    requires m < 12 && p + 3 <= |s| && Lower(s[p..p + 3]) != ShortMonths[m]
    ensures !MatchesIgnoreCaseAt(s, p, ShortMonths[m])
  {
    ShortKeys(m);
    LowerKey(ShortMonths[m]);
  }

  /** Pattern 1 cannot match at p when the three letters there fold to no key of the month map. */
  lemma NoMonthAt(s: string, p: nat)
    requires p <= |s|
    requires p + 3 > |s| || Lower(s[p..p + 3]) !in MonthMap
    ensures MonthFirstAt(s, p).None?
  {
    forall k | 0 <= k < 12
      ensures !MatchesIgnoreCaseAt(s, p, ShortMonths[k])
    {
      ShortKeys(k);
      if p + 3 <= |s| {
        KeyMissesAt(s, p, k);
      }
    }
  }

  /** Letters folding to "mar" select the third month: "jan" and "feb" are tried first and miss. */
  lemma MarAt(s: string, p: nat)
    requires p + 3 <= |s| && Lower(s[p..p + 3]) == "mar"
    ensures MonthIndexFrom(s, p, 0) == Some(2)
  {
    KeyMissesAt(s, p, 0);
    KeyMissesAt(s, p, 1);
    KeyMatchesAt(s, p, 2);
  }

  /** Letters folding to "feb" select the second month. */
  lemma FebAt(s: string, p: nat)
    requires p + 3 <= |s| && Lower(s[p..p + 3]) == "feb"
    ensures MonthIndexFrom(s, p, 0) == Some(1)
  {
    KeyMissesAt(s, p, 0);
    KeyMatchesAt(s, p, 1);
  }

  lemma MarchForms() ensures MonthForms(2) == ["march", "mar"] {
    assert MonthSuffixes[2] == "ch";
    assert ShortMonths[2] == "mar";
    assert "mar" + "ch" == "march";
  }

  lemma FebruaryForms() ensures MonthForms(1) == ["february", "feb"] {
    assert MonthSuffixes[1] == "ruary";
    assert ShortMonths[1] == "feb";
    assert "feb" + "ruary" == "february";
  }

  lemma Number1998() ensures Number("1998") == 1998 {
    var d1, d19, d199 := "1", "19", "199";
    assert d1[..0] == "" && Number(d1) == 1;
    assert d19[..1] == d1 && Number(d19) == 19;
    assert d199[..2] == d19 && Number(d199) == 199;
    assert "1998"[..3] == d199;
  }

  lemma RealDate0305() ensures IsRealDate("03/05/1998") {
    var r := "03/05/1998";
    assert r[..2] == "03" by { assert |r[..2]| == 2 && r[..2][0] == '0' && r[..2][1] == '3'; }
    assert r[3..5] == "05" by { assert |r[3..5]| == 2 && r[3..5][0] == '0' && r[3..5][1] == '5'; }
    assert r[6..] == "1998" by {
      assert |r[6..]| == 4 && r[6..][0] == '1' && r[6..][1] == '9' && r[6..][2] == '9' && r[6..][3] == '8';
    }
    assert Number("03") == 3 by { assert "03"[..1] == "0"; assert "0"[..0] == ""; }
    assert Number("05") == 5 by { assert "05"[..1] == "0"; assert "0"[..0] == ""; }
    Number1998();
  }

  /** Any spelling of March with day 5 and year 1998 becomes "03/05/1998". */
  lemma March1998(month: string)
    requires Lower(Prefix3(month)) == "mar"
    ensures DateOfMatch(NamedMatch(month, "5", "1998")) == Some("03/05/1998")
  {
    assert ZFill("5", 2) == "05";
    assert "03" + "/" + "05" + "/" + "1998" == "03/05/1998";
    RealDate0305();
  }

  /** The calendar has no 30 February, in any year. */
  lemma NoFebruary30() ensures !IsRealDate("02/30/1999") {
    var r := "02/30/1999";
    assert r[..2] == "02" by { assert |r[..2]| == 2 && r[..2][0] == '0' && r[..2][1] == '2'; }
    assert r[3..5] == "30" by { assert |r[3..5]| == 2 && r[3..5][0] == '3' && r[3..5][1] == '0'; }
    assert Number("02") == 2 by { assert "02"[..1] == "0"; assert "0"[..0] == ""; }
    assert Number("30") == 30 by { assert "30"[..1] == "3"; assert "3"[..0] == ""; }
  }

  /** Pattern 1 at p once the month index is known. */
  lemma MonthFirstWith(s: string, p: nat, m: nat)
    requires p <= |s| && MonthIndexFrom(s, p, 0) == Some(m)
    ensures MonthFirstAt(s, p) == MonthFirstForms(s, p, MonthForms(m))
  {
  }

  /** The first alternative that matches, followed by a day and a year, gives the groups. */
  lemma FormMatches(s: string, p: nat, forms: seq<string>, day: string, year: string)
    requires p <= |s| && forms != [] && MatchesIgnoreCaseAt(s, p, forms[0])
    requires DayYearAfter(s, p + |forms[0]|) == Some((day, year))
    ensures MonthFirstForms(s, p, forms) == Some(NamedMatch(s[p..p + |forms[0]|], day, year))
  {
  }

  /** An alternative without a day and a year after it passes on to the next one. */
  lemma FormFails(s: string, p: nat, forms: seq<string>)
    requires p <= |s| && forms != []
    requires !MatchesIgnoreCaseAt(s, p, forms[0]) || DayYearAfter(s, p + |forms[0]|).None?
    ensures MonthFirstForms(s, p, forms) == MonthFirstForms(s, p, forms[1..])
  {
  }

  /** A trimmed input without '/' goes straight to the month-name path. */
  lemma NamedOnly(s: string)
    requires IsTrimmed(s) && '/' !in s
    ensures ParseDate(s) == NamedMonthDate(s)
  {
    StripOfTrimmed(s);
  }

  /** A pattern-1 match at the very start decides the month-name path. */
  lemma NamedAtStart(s: string)
    requires MonthFirstAt(s, 0).Some?
    ensures NamedMonthDate(s) == DateOfMatch(MonthFirstAt(s, 0).value)
  {
    MonthFirstWins(s, 0);
  }

  lemma KeyOfMar() ensures Lower(Prefix3("March")) == "mar" && Lower(Prefix3("Mar")) == "mar" {
    assert Prefix3("March") == "Mar";
  }

  /** `Month DD, YYYY`. */
  const MarchExample: string := "March 5, 1998"

  lemma MarchIndex() ensures MonthIndexFrom(MarchExample, 0, 0) == Some(2) {
    assert MarchExample[0..3] == "Mar" && Lower(MarchExample[0..3]) == "mar";
    MarAt(MarchExample, 0);
  }

  lemma MarchLongForm() ensures MatchesIgnoreCaseAt(MarchExample, 0, "march") && MarchExample[0..5] == "March" {
    assert MarchExample[0..5] == "March";
    assert Lower("March") == "march";
    assert Lower("march") == "march";
  }

  lemma MarchSlices() ensures MarchExample[6..7] == "5" && MarchExample[9..13] == "1998" {
    assert |MarchExample[6..7]| == 1 && MarchExample[6..7][0] == '5';
    assert |MarchExample[9..13]| == 4 && MarchExample[9..13][0] == '1' && MarchExample[9..13][1] == '9' && MarchExample[9..13][2] == '9' && MarchExample[9..13][3] == '8';
  }

  lemma MarchDayYear() ensures DayYearAfter(MarchExample, 5) == Some(("5", "1998")) {
    assert AfterDot(MarchExample, 5) == 5;
    assert SpaceRun(MarchExample, 5) == 1;
    assert DigitRun(MarchExample, 6, 2) == 1;
    assert MarchExample[7] == ',';
    assert SpaceRun(MarchExample, 8) == 1;
    assert FourDigitsAt(MarchExample, 9);
    MarchSlices();
  }

  lemma MarchMonthFirst() ensures MonthFirstAt(MarchExample, 0) == Some(NamedMatch("March", "5", "1998")) {
    MarchIndex();
    MonthFirstWith(MarchExample, 0, 2);
    MarchForms();
    MarchLongForm();
    MarchDayYear();
    FormMatches(MarchExample, 0, ["march", "mar"], "5", "1998");
  }

  /** "March 5, 1998" is found by pattern 1 and normalised to "03/05/1998". */
  lemma MarchParsed() ensures ParseDate(MarchExample) == Some("03/05/1998") {
    NamedOnly(MarchExample);
    MarchMonthFirst();
    NamedAtStart(MarchExample);
    KeyOfMar();
    March1998("March");
  }


  /** `Month. DD, YYYY`: the long form cannot match at the dot, so the short form does. */
  const MarDotExample: string := "Mar. 5, 1998"

  lemma MarDotIndex() ensures MonthIndexFrom(MarDotExample, 0, 0) == Some(2) {
    assert MarDotExample[0..3] == "Mar" && Lower(MarDotExample[0..3]) == "mar";
    MarAt(MarDotExample, 0);
  }

  lemma MarDotForms()
    ensures !MatchesIgnoreCaseAt(MarDotExample, 0, "march")
    ensures MatchesIgnoreCaseAt(MarDotExample, 0, "mar") && MarDotExample[0..3] == "Mar"
  {
    assert Lower(MarDotExample[0..5])[3] == '.' && Lower("march")[3] == 'c';
    assert MarDotExample[0..3] == "Mar" && Lower("Mar") == "mar" && Lower("mar") == "mar";
  }

  lemma MarDotSlices() ensures MarDotExample[5..6] == "5" && MarDotExample[8..12] == "1998" {
    assert |MarDotExample[5..6]| == 1 && MarDotExample[5..6][0] == '5';
    assert |MarDotExample[8..12]| == 4 && MarDotExample[8..12][0] == '1' && MarDotExample[8..12][1] == '9' && MarDotExample[8..12][2] == '9' && MarDotExample[8..12][3] == '8';
  }

  lemma MarDotDayYear() ensures DayYearAfter(MarDotExample, 3) == Some(("5", "1998")) {
    assert AfterDot(MarDotExample, 3) == 4;
    assert SpaceRun(MarDotExample, 4) == 1;
    assert DigitRun(MarDotExample, 5, 2) == 1;
    assert MarDotExample[6] == ',';
    assert SpaceRun(MarDotExample, 7) == 1;
    assert FourDigitsAt(MarDotExample, 8);
    MarDotSlices();
  }

  lemma MarDotMonthFirst() ensures MonthFirstAt(MarDotExample, 0) == Some(NamedMatch("Mar", "5", "1998")) {
    MarDotIndex();
    MonthFirstWith(MarDotExample, 0, 2);
    MarchForms();
    MarDotForms();
    FormFails(MarDotExample, 0, ["march", "mar"]);
    assert ["march", "mar"][1..] == ["mar"];
    MarDotDayYear();
    FormMatches(MarDotExample, 0, ["mar"], "5", "1998");
  }

  /** "Mar. 5, 1998" is normalised to "03/05/1998". */
  lemma MarDotParsed() ensures ParseDate(MarDotExample) == Some("03/05/1998") {
    NamedOnly(MarDotExample);
    MarDotMonthFirst();
    NamedAtStart(MarDotExample);
    KeyOfMar();
    March1998("Mar");
  }


  /** `DD Month YYYY`. */
  const DayFirstExample: string := "5 March 1998"

  lemma DayFirstIndex() ensures MonthIndexFrom(DayFirstExample, 2, 0) == Some(2) {
    assert DayFirstExample[2..5] == "Mar" && Lower(DayFirstExample[2..5]) == "mar";
    MarAt(DayFirstExample, 2);
  }

  lemma DayFirstLongForm() ensures MatchesIgnoreCaseAt(DayFirstExample, 2, "march") && DayFirstExample[2..7] == "March" {
    assert DayFirstExample[2..7] == "March";
    assert Lower("March") == "march";
    assert Lower("march") == "march";
  }

  /** "March" is followed by "19" and a digit, not a day and a separator. */
  lemma DayFirstNoDayAfterLong() ensures DayYearAfter(DayFirstExample, 7).None? {
    assert AfterDot(DayFirstExample, 7) == 7;
    assert SpaceRun(DayFirstExample, 7) == 1;
    assert DigitRun(DayFirstExample, 8, 2) == 2;
    assert DayFirstExample[10] == '9';
  }

  /** "Mar" is followed by a letter, not whitespace. */
  lemma DayFirstNoDayAfterShort() ensures DayYearAfter(DayFirstExample, 5).None? {
    assert AfterDot(DayFirstExample, 5) == 5;
    assert SpaceRun(DayFirstExample, 5) == 0;
  }

  /** At the month itself pattern 1 fails with both alternatives. */
  lemma DayFirstExampleAtMonth() ensures MonthFirstAt(DayFirstExample, 2).None? {
    DayFirstIndex();
    MonthFirstWith(DayFirstExample, 2, 2);
    MarchForms();
    DayFirstNoDayAfterLong();
    FormFails(DayFirstExample, 2, ["march", "mar"]);
    assert ["march", "mar"][1..] == ["mar"];
    DayFirstNoDayAfterShort();
    FormFails(DayFirstExample, 2, ["mar"]);
    assert ["mar"][1..] == [];
  }

  /** Three letters that fold to no month key: the first is no key's first letter, or
      it is 'a' and the second is neither 'p' nor 'u'. */
  lemma NotKey(x: string)
    requires |x| == 3
    requires LowerAscii(x[0]) !in "jfmsond"
    requires LowerAscii(x[0]) == 'a' ==> LowerAscii(x[1]) != 'p' && LowerAscii(x[1]) != 'u'
    ensures Lower(x) !in MonthMap
  {
    assert Lower(x)[0] == LowerAscii(x[0]) && Lower(x)[1] == LowerAscii(x[1]);
  }

  /** Pattern 1 matches nowhere in "5 March 1998". */
  lemma DayFirstExampleNoPattern1()
    ensures forall j :: 0 <= j <= |DayFirstExample| ==> MonthFirstAt(DayFirstExample, j).None?
  {
    var s := DayFirstExample;
    forall j | 0 <= j <= |s|
      ensures MonthFirstAt(s, j).None?
    {
      if j == 2 {
        DayFirstExampleAtMonth();
      } else {
        if j + 3 <= |s| {
          NotKey(s[j..j + 3]);
        }
        NoMonthAt(s, j);
      }
    }
  }

  lemma DayFirstYear() ensures YearAfter(DayFirstExample, 7) == Some("1998") {
    assert AfterDot(DayFirstExample, 7) == 7;
    assert SpaceRun(DayFirstExample, 7) == 1;
    assert FourDigitsAt(DayFirstExample, 8) && DayFirstExample[8..12] == "1998";
  }

  lemma DayFirstExampleMatch() ensures DayFirstAt(DayFirstExample, 0) == Some(NamedMatch("March", "5", "1998")) {
    assert DigitRun(DayFirstExample, 0, 2) == 1 && SpaceRun(DayFirstExample, 1) == 1;
    assert DayFirstExample[0..1] == "5";
    DayFirstIndex();
    MarchForms();
    DayFirstLongForm();
    DayFirstYear();
  }

  /** "5 March 1998" falls back to pattern 2 and is normalised to "03/05/1998". */
  lemma DayFirstParsed() ensures ParseDate(DayFirstExample) == Some("03/05/1998") {
    NamedOnly(DayFirstExample);
    DayFirstExampleNoPattern1();
    DayFirstExampleMatch();
    DayFirstFallback(DayFirstExample, 0);
    KeyOfMar();
    March1998("March");
  }


  /** A matched date the calendar does not have. */
  const Feb30Example: string := "February 30, 1999"

  lemma Feb30Index() ensures MonthIndexFrom(Feb30Example, 0, 0) == Some(1) {
    assert Feb30Example[0..3] == "Feb" && Lower(Feb30Example[0..3]) == "feb";
    FebAt(Feb30Example, 0);
  }

  lemma Feb30LongForm() ensures MatchesIgnoreCaseAt(Feb30Example, 0, "february") && Feb30Example[0..8] == "February" {
    assert Feb30Example[0..8] == "February";
    assert Lower("February") == "february";
    assert Lower("february") == "february";
  }

  lemma Feb30Slices() ensures Feb30Example[9..11] == "30" && Feb30Example[13..17] == "1999" {
    assert |Feb30Example[9..11]| == 2 && Feb30Example[9..11][0] == '3' && Feb30Example[9..11][1] == '0';
    assert |Feb30Example[13..17]| == 4 && Feb30Example[13..17][0] == '1' && Feb30Example[13..17][1] == '9' && Feb30Example[13..17][2] == '9' && Feb30Example[13..17][3] == '9';
  }

  lemma Feb30DayYear() ensures DayYearAfter(Feb30Example, 8) == Some(("30", "1999")) {
    assert AfterDot(Feb30Example, 8) == 8;
    assert SpaceRun(Feb30Example, 8) == 1;
    assert DigitRun(Feb30Example, 9, 2) == 2;
    assert Feb30Example[11] == ',';
    assert SpaceRun(Feb30Example, 12) == 1;
    assert FourDigitsAt(Feb30Example, 13);
    Feb30Slices();
  }

  lemma Feb30MonthFirst() ensures MonthFirstAt(Feb30Example, 0) == Some(NamedMatch("February", "30", "1999")) {
    Feb30Index();
    MonthFirstWith(Feb30Example, 0, 1);
    FebruaryForms();
    Feb30LongForm();
    Feb30DayYear();
    FormMatches(Feb30Example, 0, ["february", "feb"], "30", "1999");
  }

  lemma Feb30Date() ensures DateOfMatch(NamedMatch("February", "30", "1999")) == None {
    assert Lower(Prefix3("February")) == "feb";
    assert ZFill("30", 2) == "30";
    assert "02" + "/" + "30" + "/" + "1999" == "02/30/1999";
    NoFebruary30();
  }

  /** "February 30, 1999" matches pattern 1 but fails the calendar check, so the result is None. */
  lemma Feb30Rejected() ensures ParseDate(Feb30Example) == None {
    NamedOnly(Feb30Example);
    Feb30MonthFirst();
    NamedAtStart(Feb30Example);
    Feb30Date();
  }

}
