/**
 * `TXTParser.parse_press_release`: the title and the date of a text release.
 * The title is the first line worth reading; the date is the first `d/d/dddd`
 * anywhere in the text.
 */
module TxtParser {
  import opened Options
  import opened Strings

  /** The parsed release, `{"title": ..., "date": ...}`. */
  datatype Parsed = Parsed(title: string, date: string)

  /** Line openings that disqualify a line as the title. */
  const TitleSkips: seq<string> := ["FOR IMMEDIATE RELEASE", "http://", "Modified:"]

  /** A line that can be the title: not blank, and, as written (before stripping),
      not opening with one of the skipped prefixes. */
  predicate Qualifies(line: string) {
    Strip(line) != [] && !StartsWithAny(line, TitleSkips)
  }

  /** Line k is the first line that qualifies. */
  predicate TitleLine(lines: seq<string>, k: int) {
    0 <= k < |lines| && Qualifies(lines[k]) && forall j :: 0 <= j < k ==> !Qualifies(lines[j])
  }

  /** The stripped first qualifying line, or "" when none qualifies. */
  function FirstTitle(lines: seq<string>): (title: string)
    ensures title == [] <==> forall k :: 0 <= k < |lines| ==> !Qualifies(lines[k])
    ensures title != [] ==> exists k :: TitleLine(lines, k) && title == Strip(lines[k])
  {
    match TitleIndexFrom(lines, 0)
    case None => []
    case Some(k) =>
      assert TitleLine(lines, k);
      Strip(lines[k])
  }

  /** The index of the first qualifying line from i on. */
  function TitleIndexFrom(lines: seq<string>, i: nat): (r: Option<nat>)
    requires i <= |lines|
    ensures r.Some? ==> i <= r.value < |lines| && Qualifies(lines[r.value])
    ensures r.Some? ==> forall j :: i <= j < r.value ==> !Qualifies(lines[j])
    ensures r.None? ==> forall k :: i <= k < |lines| ==> !Qualifies(lines[k])
    decreases |lines| - i
  {
    if i == |lines| then None
    else if Qualifies(lines[i]) then Some(i)
    else
      var r := TitleIndexFrom(lines, i + 1);
      if r.Some? then
        SkipBefore(lines, i, r.value);
        r
      else
        SkipAll(lines, i);
        r
  }

  /** A line that does not qualify, then none until index e: none from i to e. */
  lemma SkipBefore(lines: seq<string>, i: nat, e: nat)
    requires i < |lines| && !Qualifies(lines[i])
    requires e <= |lines| && forall j :: i + 1 <= j < e ==> !Qualifies(lines[j])
    ensures forall j :: i <= j < e ==> !Qualifies(lines[j])
  {
    forall j | i <= j < e
      ensures !Qualifies(lines[j])
    {
      if j != i {
        assert i + 1 <= j < e;
      }
    }
  }

  /** None before i, and line i does not qualify: none before i + 1. */
  lemma SkipNext(lines: seq<string>, i: nat)
    requires i < |lines| && !Qualifies(lines[i])
    requires forall k :: 0 <= k < i ==> !Qualifies(lines[k])
    ensures forall k :: 0 <= k < i + 1 ==> !Qualifies(lines[k])
  {
    forall k | 0 <= k < i + 1
      ensures !Qualifies(lines[k])
    {
      if k != i {
        assert 0 <= k < i;
      }
    }
  }

  /** A line that does not qualify, then none to the end: none from i on. */
  lemma SkipAll(lines: seq<string>, i: nat)
    requires i < |lines| && !Qualifies(lines[i])
    requires forall k :: i + 1 <= k < |lines| ==> !Qualifies(lines[k])
    ensures forall k :: i <= k < |lines| ==> !Qualifies(lines[k])
  {
    SkipBefore(lines, i, |lines|);
  }

  /** `\d{1,2}/\d{1,2}/\d{4}` anchored at index p: the end of the match. Each
      `\d{1,2}` must take every digit there is, for a digit cannot stand where
      the '/' is expected. */
  function SlashDateAt(s: string, p: nat): (e: Option<nat>)
    requires p <= |s|
    ensures e.Some? ==> p + 8 <= e.value <= |s|
  {
    var n1 := DigitRun(s, p, 2);
    var q1 := p + n1;
    if n1 == 0 || q1 == |s| || s[q1] != '/' then None
    else
      var n2 := DigitRun(s, q1 + 1, 2);
      var q2 := q1 + 1 + n2;
      if n2 == 0 || q2 == |s| || s[q2] != '/' || !FourDigitsAt(s, q2 + 1) then None
      else Some(q2 + 5)
  }

  /** The leftmost index from p on where a slash date starts. */
  function SlashDateFrom(s: string, p: nat): (r: Option<nat>)
    requires p <= |s|
    ensures r.Some? ==> p <= r.value <= |s| && SlashDateAt(s, r.value).Some?
    ensures r.Some? ==> forall j :: p <= j < r.value ==> SlashDateAt(s, j).None?
    ensures r.None? ==> forall j :: p <= j <= |s| ==> SlashDateAt(s, j).None?
    decreases |s| - p
  {
    if SlashDateAt(s, p).Some? then Some(p)
    else if p == |s| then None
    else
      var r := SlashDateFrom(s, p + 1);
      if r.Some? then
        NoSlashDateBefore(s, p, r.value);
        r
      else
        NoSlashDateBefore(s, p, |s| + 1);
        r
  }

  /** No slash date at p, and none from p + 1 to e: none from p to e. */
  lemma NoSlashDateBefore(s: string, p: nat, e: nat)
    requires p < |s| && SlashDateAt(s, p).None?
    requires e <= |s| + 1 && forall j :: p + 1 <= j < e ==> SlashDateAt(s, j).None?
    ensures forall j :: p <= j < e ==> SlashDateAt(s, j).None?
  {
    forall j | p <= j < e
      ensures SlashDateAt(s, j).None?
    {
      if j != p {
        assert p + 1 <= j < e;
      }
    }
  }

  /** The whole text is one slash date. */
  predicate IsSlashDateText(d: string) {
    SlashDateAt(d, 0).Some? && SlashDateAt(d, 0).value == |d|
  }

  /** A digit run read inside a slice that holds the whole run, and the character that ends it. */
  lemma {:induction false} DigitRunSlice(s: string, p: nat, e: nat, j: nat, m: nat)
    requires p <= e <= |s| && p + j <= e
    requires p + j + m <= e || p + j + DigitRun(s, p + j, m) < e
    ensures DigitRun(s[p..e], j, m) == DigitRun(s, p + j, m)
    decreases m
  {
    var t := s[p..e];
    if m > 0 && p + j < e {
      assert t[j] == s[p + j];
      if IsDigit(s[p + j]) {
        DigitRunSlice(s, p, e, j + 1, m - 1);
      }
    }
  }

  /** A text made of a digits, '/', b digits, '/', four digits is one slash date. */
  lemma SlashDateWhole(d: string, a: nat, b: nat)
    requires |d| == a + b + 6 && 0 < a && 0 < b
    requires DigitRun(d, 0, 2) == a && d[a] == '/'
    requires DigitRun(d, a + 1, 2) == b && d[a + 1 + b] == '/'
    requires FourDigitsAt(d, a + b + 2)
    ensures IsSlashDateText(d)
  {
  }

  /** Four digits read inside a slice that holds them. */
  lemma FourDigitsSlice(s: string, p: nat, e: nat, i: nat)
    requires p <= e <= |s| && p + i + 4 <= e && FourDigitsAt(s, p + i)
    ensures FourDigitsAt(s[p..e], i)
  {
    var t := s[p..e][i..i + 4];
    forall k | 0 <= k < 4
      ensures IsDigit(t[k])
    {
      assert t[k] == s[p + i..p + i + 4][k];
    }
  }

  /** The slash date matched at p, cut out, is one slash date. */
  lemma SlashDateText(s: string, p: nat)
    requires p <= |s| && SlashDateAt(s, p).Some?
    ensures IsSlashDateText(s[p..SlashDateAt(s, p).value])
  {
    var a := DigitRun(s, p, 2);
    var b := DigitRun(s, p + a + 1, 2);
    SlashDateAtMatch(s, p, a, b);
    SlashDateSlice(s, p, a, b);
  }

  /** What a slash date at p is made of: a digits, '/', b digits, '/', four digits. */
  lemma SlashDateAtMatch(s: string, p: nat, a: nat, b: nat)
    requires p <= |s| && SlashDateAt(s, p).Some?
    requires a == DigitRun(s, p, 2) && b == DigitRun(s, p + a + 1, 2)
    ensures 0 < a && 0 < b && SlashDateAt(s, p).value == p + a + b + 6
    ensures s[p + a] == '/' && s[p + a + 1 + b] == '/' && FourDigitsAt(s, p + a + b + 2)
  {
  }

  /** A slash date of a and b digits at p, cut out, is one slash date. */
  lemma SlashDateSlice(s: string, p: nat, a: nat, b: nat)
    requires p + a + b + 6 <= |s| && 0 < a && 0 < b
    requires DigitRun(s, p, 2) == a && s[p + a] == '/'
    requires DigitRun(s, p + a + 1, 2) == b && s[p + a + 1 + b] == '/'
    requires FourDigitsAt(s, p + a + b + 2)
    ensures IsSlashDateText(s[p..p + a + b + 6])
  {
    SlashDateSliceParts(s, p, a, b);
    SlashDateWhole(s[p..p + a + b + 6], a, b);
  }

  /** The parts of a slash date of a and b digits at p, read in the cut-out text. */
  lemma SlashDateSliceParts(s: string, p: nat, a: nat, b: nat)
    requires p + a + b + 6 <= |s| && 0 < a && 0 < b
    requires DigitRun(s, p, 2) == a && s[p + a] == '/'
    requires DigitRun(s, p + a + 1, 2) == b && s[p + a + 1 + b] == '/'
    requires FourDigitsAt(s, p + a + b + 2)
    ensures var d := s[p..p + a + b + 6];
      |d| == a + b + 6 && DigitRun(d, 0, 2) == a && d[a] == '/'
      && DigitRun(d, a + 1, 2) == b && d[a + 1 + b] == '/' && FourDigitsAt(d, a + b + 2)
  {
    var e := p + a + b + 6;
    var d := s[p..e];
    SlashRunsSlice(s, p, e, a, b);
    assert p + (a + b + 2) == p + a + b + 2;
    FourDigitsSlice(s, p, e, a + b + 2);
    assert d[a] == s[p + a] && d[a + 1 + b] == s[p + a + 1 + b];
  }

  /** The two digit runs of a slash date at p, read in a slice from p that holds them. */
  lemma SlashRunsSlice(s: string, p: nat, e: nat, a: nat, b: nat)
    requires p + a + b + 6 <= e <= |s|
    requires DigitRun(s, p, 2) == a && s[p + a] == '/'
    requires DigitRun(s, p + a + 1, 2) == b && s[p + a + 1 + b] == '/'
    ensures DigitRun(s[p..e], 0, 2) == a && DigitRun(s[p..e], a + 1, 2) == b
  {
    assert p + 0 == p;
    DigitRunSlice(s, p, e, 0, 2);
    assert p + (a + 1) == p + a + 1;
    DigitRunSlice(s, p, e, a + 1, 2);
  }

  /** The date of the release: the leftmost slash date, or "" when there is none. */
  function FirstSlashDate(content: string): (date: string)
    ensures date == [] <==> forall j :: 0 <= j <= |content| ==> SlashDateAt(content, j).None?
    ensures date != [] ==> IsSlashDateText(date)
    ensures date != [] ==>
      exists p :: 0 <= p <= |content| && SlashDateAt(content, p).Some?
        && date == content[p..SlashDateAt(content, p).value]
        && forall j :: 0 <= j < p ==> SlashDateAt(content, j).None?
  {
    match SlashDateFrom(content, 0)
    case None => []
    case Some(p) =>
      SlashDateText(content, p);
      content[p..SlashDateAt(content, p).value]
  }

  /** `parse_press_release`: the title loop with its `break`, then the date search.
      Splitting a string on '\n' cannot fail, so the result is never None. */
  method ParsePressRelease(content: string) returns (r: Option<Parsed>)
    ensures r == Some(Parsed(FirstTitle(Split(content, '\n')), FirstSlashDate(content)))
  {
    var lines := Split(content, '\n');
    var title := "";
    var i := 0;
    while i < |lines|
      invariant 0 <= i <= |lines|
      invariant title == [] && forall k :: 0 <= k < i ==> !Qualifies(lines[k])
    {
      var line := lines[i];
      if Qualifies(line) {
        title := Strip(line);
        FirstQualifying(lines, i);
        break;
      }
      SkipNext(lines, i);
      i := i + 1;
    }
    var date := FirstSlashDate(content);
    r := Some(Parsed(title, date));
  }

  /** The first qualifying line is the title. */
  lemma FirstQualifying(lines: seq<string>, i: nat)
    requires i < |lines| && Qualifies(lines[i])
    requires forall k :: 0 <= k < i ==> !Qualifies(lines[k])
    ensures FirstTitle(lines) == Strip(lines[i])
  {
    var r := TitleIndexFrom(lines, 0);
    assert r.Some? && r.value == i;
  }

  /** A title line is judged before stripping: an indented "FOR IMMEDIATE RELEASE"
      line qualifies and becomes the title. */
  lemma IndentedSkipQualifies()
    ensures Qualifies(" FOR IMMEDIATE RELEASE")
    ensures !Qualifies("FOR IMMEDIATE RELEASE")
  {
    var s := " FOR IMMEDIATE RELEASE";
    assert s[0] == ' ' && !IsSpace(s[1]);
    IndentedQualifies(s);
    assert StartsWith("FOR IMMEDIATE RELEASE", TitleSkips[0]);
  }

  /** Every skipped prefix opens with a letter, so an indented line that is not
      blank always qualifies. */
  lemma IndentedQualifies(line: string)
    requires line != [] && IsSpace(line[0]) && !AllSpace(line)
    ensures Qualifies(line)
  {
    assert TitleSkips[0][0] == 'F' && TitleSkips[1][0] == 'h' && TitleSkips[2][0] == 'M';
    FirstCharDiffers(line, TitleSkips[0]);
    FirstCharDiffers(line, TitleSkips[1]);
    FirstCharDiffers(line, TitleSkips[2]);
  }

  /** A text does not start with a prefix whose first character differs from its own. */
  lemma FirstCharDiffers(s: string, t: string)
    requires s != [] && t != [] && s[0] != t[0]
    ensures !StartsWith(s, t)
  {
    assert |t| > |s| || s[..|t|][0] != t[0];
  }
}
