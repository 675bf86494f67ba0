/**
 * The collector for the 1977-2001 text archive: the listing pass over the yearly
 * index, and the cleaner that turns a fetched release into one line of prose.
 *
 * The cleaner removes everything up to the "Washington, D.C., <date> -" dateline,
 * a leading dash, every line from the first "# # #"-style separator line on, all
 * surplus whitespace, and everything from the first run of three '#'/'*' marks on.
 */
module TxtCollector {
  import opened Options
  import opened Strings
  import opened DateUtils
  import opened Listing

  // ------------------------------------------------------------ the dateline

  /** The abbreviated month alternatives of the dateline regex, in the order it tries
      them (`Jun(?:e)?` and `Sep(?:t)?` try the longer spelling first); each may be
      followed by a '.'. */
  const DatelineShortMonths: seq<string> :=
    ["jan", "feb", "mar", "apr", "june", "jun", "jul", "aug", "sept", "sep", "oct", "nov", "dec"]

  /** The full month names of the dateline regex, tried after every abbreviation. */
  const DatelineLongMonths: seq<string> :=
    ["january", "february", "march", "april", "may", "june", "july", "august",
     "september", "october", "november", "december"]

  /** A dash ends just before index e. */
  predicate DashEnd(s: string, e: nat) {
    0 < e <= |s| && IsDash(s[e - 1])
  }

  /** `\s+?\d{1,2},?\s+?\d{4}\s*?[—–-]` from index e: the end of the first dash
      after the day and the year. */
  function DateTail(s: string, e: nat): (r: Option<nat>)
    requires e <= |s|
    ensures r.Some? ==> e < r.value && DashEnd(s, r.value)
  {
    var j := e + SpaceRun(s, e);
    var n := DigitRun(s, j, 2);
    if j == e || n == 0 then None
    else
      var m := j + n;
      var m1 := if m < |s| && s[m] == ',' then m + 1 else m;
      var x := m1 + SpaceRun(s, m1);
      if x == m1 || !FourDigitsAt(s, x) then None
      else
        var t := x + 4 + SpaceRun(s, x + 4);
        if t < |s| && IsDash(s[t]) then Some(t + 1) else None
  }

  /** The abbreviated month alternatives at index k, each with and then without a '.'. */
  function ShortMonthFrom(s: string, k: nat, forms: seq<string>): (r: Option<nat>)
    requires k <= |s|
    ensures r.Some? ==> k < r.value && DashEnd(s, r.value)
  {
    if forms == [] then None
    else if MatchesIgnoreCaseAt(s, k, forms[0]) then
      var e := k + |forms[0]|;
      if e < |s| && s[e] == '.' && DateTail(s, e + 1).Some? then DateTail(s, e + 1)
      else if DateTail(s, e).Some? then DateTail(s, e)
      else ShortMonthFrom(s, k, forms[1..])
    else ShortMonthFrom(s, k, forms[1..])
  }

  /** The full month alternatives at index k. */
  function LongMonthFrom(s: string, k: nat, forms: seq<string>): (r: Option<nat>)
    requires k <= |s|
    ensures r.Some? ==> k < r.value && DashEnd(s, r.value)
  {
    if forms == [] then None
    else if MatchesIgnoreCaseAt(s, k, forms[0]) && DateTail(s, k + |forms[0]|).Some? then
      DateTail(s, k + |forms[0]|)
    else LongMonthFrom(s, k, forms[1..])
  }

  /** `Washington,?\s*?D\.?C\.?,?\s*?` with "Washington" at index w: where the month starts. */
  function MonthStart(s: string, w: nat): (k: Option<nat>)
    requires w + 10 <= |s|
    ensures k.Some? ==> w + 10 < k.value <= |s|
  {
    var i := w + 10;
    var i1 := if i < |s| && s[i] == ',' then i + 1 else i;
    var j := i1 + SpaceRun(s, i1);
    if !(j < |s| && LowerAscii(s[j]) == 'd') then None
    else
      var j1 := AfterDot(s, j + 1);
      if !(j1 < |s| && LowerAscii(s[j1]) == 'c') then None
      else
        var k0 := AfterDot(s, j1 + 1);
        var k1 := if k0 < |s| && s[k0] == ',' then k0 + 1 else k0;
        Some(k1 + SpaceRun(s, k1))
  }

  /** The month group at index k, abbreviations first, and the rest of the dateline. */
  function MonthAndDate(s: string, k: nat): (r: Option<nat>)
    requires k <= |s|
    ensures r.Some? ==> k < r.value && DashEnd(s, r.value)
  {
    var r := ShortMonthFrom(s, k, DatelineShortMonths);
    if r.Some? then r else LongMonthFrom(s, k, DatelineLongMonths)
  }

  /** The dateline with "Washington" at index w: the end of its first dash. */
  function DatelineAt(s: string, w: nat): (r: Option<nat>)
    requires w + 10 <= |s|
    ensures r.Some? ==> w + 10 < r.value <= |s| && IsDash(s[r.value - 1])
  {
    var k := MonthStart(s, w);
    if k.None? then None else MonthAndDate(s, k.value)
  }

  /** "Washington", case-insensitively, at index w with a dateline after it. */
  predicate DatelineStartsAt(s: string, w: nat) {
    w + 10 <= |s| && MatchesIgnoreCaseAt(s, w, "washington") && DatelineAt(s, w).Some?
  }

  /** The lazy `^.*?` before "Washington": the first index from w on where a
      whole dateline starts. */
  function DatelineFrom(s: string, w: nat): (r: Option<nat>)
    ensures r.Some? ==> w <= r.value && DatelineStartsAt(s, r.value)
    decreases |s| - w
  {
    if w + 10 > |s| then None
    else if DatelineStartsAt(s, w) then Some(w)
    else DatelineFrom(s, w + 1)
  }

  /** `DatelineFrom` returns the leftmost index from w on where a dateline starts. */
  lemma {:induction false} DatelineFromLeftmost(s: string, w: nat, v: nat)
    requires w <= v && DatelineStartsAt(s, v)
    requires forall u :: w <= u < v ==> !DatelineStartsAt(s, u)
    ensures DatelineFrom(s, w) == Some(v)
    decreases v - w
  {
    if w < v {
      DatelineFromLeftmost(s, w + 1, v);
    }
  }

  /** `DatelineFrom` finds nothing when no dateline starts from w on. */
  lemma {:induction false} DatelineFromNone(s: string, w: nat)
    requires forall v :: w <= v ==> !DatelineStartsAt(s, v)
    ensures DatelineFrom(s, w).None?
    decreases |s| - w
  {
    if w + 10 <= |s| {
      DatelineFromNone(s, w + 1);
    }
  }

  /** The substitution at txt_collector.py line 80: everything up to and including
      the first dash of the leftmost dateline is removed; without a dateline the
      text is kept whole. */
  function DropDateline(s: string): string {
    match DatelineFrom(s, 0)
    case None => s
    case Some(v) => s[DatelineAt(s, v).value..]
  }

  /** Without a dateline anywhere, `DropDateline` keeps the text whole. */
  lemma DropDatelineNone(s: string)
    requires forall v :: !DatelineStartsAt(s, v)
    ensures DropDateline(s) == s
  {
    DatelineFromNone(s, 0);
  }

  /** With its leftmost dateline at v, `DropDateline` keeps what follows the
      first dash of that dateline. */
  lemma DropDatelineLeftmost(s: string, v: nat)
    requires DatelineStartsAt(s, v)
    requires forall u :: 0 <= u < v ==> !DatelineStartsAt(s, u)
    ensures DropDateline(s) == s[DatelineAt(s, v).value..]
  {
    DatelineFromLeftmost(s, 0, v);
  }

  /** `^(?:-{1,2}|—|–)\s*`: one or two hyphens, or one dash, and the blanks after it. */
  function DropLeadingDash(s: string): (r: string)
    ensures r == s || (|r| < |s| && r == s[|s| - |r|..])
    ensures s == [] || !IsDash(s[0]) ==> r == s
    ensures s != [] && IsDash(s[0]) ==> |r| < |s| && (r == [] || !IsSpace(r[0]))
    ensures |s| >= 2 && s[0] == '-' && s[1] == '-' ==> |r| <= |s| - 2
    ensures var n := if |s| >= 2 && s[0] == '-' && s[1] == '-' then 2 else if s != [] && IsDash(s[0]) then 1 else 0;
      n <= |s| - |r| && forall j :: n <= j < |s| - |r| ==> IsSpace(s[j])
  {
    var n :=
      if |s| >= 2 && s[0] == '-' && s[1] == '-' then 2
      else if s != [] && IsDash(s[0]) then 1
      else 0;
    if n == 0 then s else s[n + SpaceRun(s, n)..]
  }

  // ------------------------------------------------------------ separator lines

  /** The whole-line separators that end the body. */
  const Separators: seq<string> := ["#  #  #", "*  *  *", "# # #", "* * *", "###", "***"]

  /** The stripped lines before the first line that strips to a separator. */
  function KeptLines(lines: seq<string>): seq<string> {
    if lines == [] then []
    else
      var line := Strip(lines[0]);
      if line in Separators then [] else [line] + KeptLines(lines[1..])
  }

  /** The kept lines are the stripped lines up to the first separator line, which is dropped. */
  lemma {:induction false} KeptLinesPrefix(lines: seq<string>)
    ensures |KeptLines(lines)| <= |lines|
    ensures forall i :: 0 <= i < |KeptLines(lines)| ==>
      KeptLines(lines)[i] == Strip(lines[i]) && KeptLines(lines)[i] !in Separators
    ensures |KeptLines(lines)| < |lines| ==> Strip(lines[|KeptLines(lines)|]) in Separators
  {
    KeptLinesEnd(lines);
    forall i | 0 <= i < |KeptLines(lines)|
      ensures KeptLines(lines)[i] == Strip(lines[i]) && KeptLines(lines)[i] !in Separators
    {
      KeptLineAt(lines, i);
    }
  }

  lemma {:induction false} KeptLinesEnd(lines: seq<string>)
    ensures |KeptLines(lines)| <= |lines|
    ensures |KeptLines(lines)| < |lines| ==> Strip(lines[|KeptLines(lines)|]) in Separators
  {
    if lines != [] && Strip(lines[0]) !in Separators {
      KeptLinesEnd(lines[1..]);
      if |KeptLines(lines)| < |lines| {
        assert lines[1..][|KeptLines(lines[1..])|] == lines[|KeptLines(lines)|];
      }
    }
  }

  lemma {:induction false} KeptLineAt(lines: seq<string>, i: nat)
    requires i < |KeptLines(lines)|
    ensures i < |lines| && KeptLines(lines)[i] == Strip(lines[i]) && KeptLines(lines)[i] !in Separators
  {
    assert lines != [] && Strip(lines[0]) !in Separators;
    if i > 0 {
      KeptLineAt(lines[1..], i - 1);
      assert lines[1..][i - 1] == lines[i];
    }
  }

  // ------------------------------------------------------------ the triple cut

  predicate IsMark(c: char) {
    c == '#' || c == '*'
  }

  /** The number of marks in the run of marks and whitespace that starts at index i. */
  function RunMarks(s: string, i: nat): nat
    requires i <= |s|
    decreases |s| - i
  {
    if i < |s| && (IsMark(s[i]) || IsSpace(s[i])) then
      (if IsMark(s[i]) then 1 else 0) + RunMarks(s, i + 1)
    else 0
  }

  /** `\s*[#*](?:\s*[#*]\s*){2,}` matches at index p: after the blanks, a run of
      marks and whitespace that opens with a mark and holds at least three marks. */
  predicate TripleAt(s: string, p: nat)
    requires p <= |s|
  {
    var q := p + SpaceRun(s, p);
    q < |s| && IsMark(s[q]) && RunMarks(s, q) >= 3
  }

  /** No mark starts a run holding three marks: nothing left for the pattern to match. */
  predicate NoTriple(s: string) {
    forall q :: 0 <= q < |s| && IsMark(s[q]) ==> RunMarks(s, q) < 3
  }

  /** The leftmost index from p on where the pattern matches. */
  function FirstTriple(s: string, p: nat): (r: Option<nat>)
    requires p <= |s|
    ensures r.Some? ==> p <= r.value <= |s| && TripleAt(s, r.value)
    ensures r.Some? ==> forall j :: p <= j < r.value ==> !TripleAt(s, j)
    ensures r.None? ==> forall j :: p <= j <= |s| ==> !TripleAt(s, j)
    decreases |s| - p
  {
    if TripleAt(s, p) then Some(p)
    else if p == |s| then None
    else FirstTriple(s, p + 1)
  }

  /** The substitution at txt_collector.py line 106: the first match and all that
      follows it (`.*$` under DOTALL) are removed. */
  function CutAtTriple(s: string): (r: string)
    ensures r <= s
    ensures (forall p :: 0 <= p <= |s| ==> !TripleAt(s, p)) ==> r == s
    ensures (exists p :: 0 <= p <= |s| && TripleAt(s, p)) ==>
      |r| < |s| && TripleAt(s, |r|) && forall j :: 0 <= j < |r| ==> !TripleAt(s, j)
  {
    match FirstTriple(s, 0)
    case None => s
    case Some(p) => s[..p]
  }

  /** The run counted inside a slice is never longer than in the whole text. */
  lemma {:induction false} RunMarksSlice(s: string, a: nat, b: nat, i: nat)
    requires a <= b <= |s| && i <= b - a
    ensures RunMarks(s[a..b], i) <= RunMarks(s, a + i)
    decreases b - a - i
  {
    var t := s[a..b];
    if i < |t| && (IsMark(t[i]) || IsSpace(t[i])) {
      assert t[i] == s[a + i];
      RunMarksSlice(s, a, b, i + 1);
    }
  }

  /** A slice of a text without a triple has none either. */
  lemma NoTripleSlice(s: string, a: nat, b: nat)
    requires NoTriple(s) && a <= b <= |s|
    ensures NoTriple(s[a..b])
  {
    var t := s[a..b];
    forall q | 0 <= q < |t| && IsMark(t[q])
      ensures RunMarks(t, q) < 3
    {
      assert t[q] == s[a + q];
      RunMarksSlice(s, a, b, q);
    }
  }

  /** After the cut no triple is left. */
  lemma CutAtTripleNoTriple(s: string)
    ensures NoTriple(CutAtTriple(s))
  {
    var r := CutAtTriple(s);
    var p := if FirstTriple(s, 0).Some? then FirstTriple(s, 0).value else |s|;
    assert r == s[0..p];
    forall q | 0 <= q < |r| && IsMark(r[q])
      ensures RunMarks(r, q) < 3
    {
      assert r[q] == s[q];
      assert SpaceRun(s, q) == 0;
      assert !TripleAt(s, q);
      RunMarksSlice(s, 0, p, q);
    }
  }

  /** A text with a triple is cut strictly before the triple's first mark. */
  lemma CutBeforeTriple(s: string, p: nat)
    requires p <= |s| && TripleAt(s, p)
    ensures |CutAtTriple(s)| <= p
  {
  }

  // ------------------------------------------------------------ the whole cleaner

  /** The text after the two leading substitutions, each followed by `.strip()`. */
  function Headless(content: string): string {
    Strip(DropLeadingDash(Strip(DropDateline(content))))
  }

  /** What the cleaner returns for the fetched text. */
  function CleanedBody(content: string): string {
    Strip(CutAtTriple(Normalize(Join(" ", KeptLines(SplitLines(Headless(content)))))))
  }

  /** Stripping a cut of a single-spaced text leaves it single-spaced and free of triples. */
  lemma StripCutShape(n: string)
    requires SingleSpaced(n)
    ensures SingleSpaced(Strip(CutAtTriple(n))) && NoTriple(Strip(CutAtTriple(n)))
  {
    var c := CutAtTriple(n);
    assert c == n[0..|c|];
    StripSliceSingleSpaced(n, 0, |c|);
    CutAtTripleNoTriple(n);
    NoTripleSlice(c, LeadingSpaces(c), LeadingSpaces(c) + |Strip(c)|);
  }

  /** The cleaned text is trimmed, single-spaced and free of '#'/'*' triples. */
  lemma CleanedBodyShape(content: string)
    ensures SingleSpaced(CleanedBody(content)) && NoTriple(CleanedBody(content))
  {
    StripCutShape(Normalize(Join(" ", KeptLines(SplitLines(Headless(content))))));
  }

  /** An empty page cleans to "", as the early return for empty content does. */
  lemma CleanedBodyEmpty()
    ensures CleanedBody("") == ""
  {
    assert DropDateline("") == "";
    assert Headless("") == "";
  }

  /** One step of the line loop: a separator line at i ends what is kept, any
      other line is kept, stripped, before what is kept after it. */
  lemma KeepLinesStep(kept: seq<string>, lines: seq<string>, i: nat, line: string)
    requires i < |lines| && line == Strip(lines[i])
    requires kept + KeptLines(lines[i..]) == KeptLines(lines)
    ensures line in Separators ==> kept == KeptLines(lines)
    ensures line !in Separators ==> (kept + [line]) + KeptLines(lines[i + 1..]) == KeptLines(lines)
  {
    assert lines[i..][1..] == lines[i + 1..];
  }

  /** The line loop of the cleaner, with the `found_separator` flag; every line is
      visited, and none is kept once the flag is up. */
  method KeepLines(lines: seq<string>) returns (kept: seq<string>)
    ensures kept == KeptLines(lines)
  {
    kept := [];
    var foundSeparator := false;
    var i := 0;
    while i < |lines|
      invariant 0 <= i <= |lines|
      invariant kept + (if foundSeparator then [] else KeptLines(lines[i..])) == KeptLines(lines)
    {
      var line := Strip(lines[i]);
      if !foundSeparator {
        KeepLinesStep(kept, lines, i, line);
        if line in Separators {
          foundSeparator := true;
          i := i + 1;
          continue;
        }
      }
      if !foundSeparator {
        kept := kept + [line];
      }
      i := i + 1;
    }
  }

  /** The body of `extract_press_release_text` after the fetch. */
  method CleanBody(content: string) returns (text: string)
    ensures text == CleanedBody(content)
    ensures SingleSpaced(text) && NoTriple(text)
  {
    var c := Strip(DropDateline(content));
    c := Strip(DropLeadingDash(c));
    var lines := SplitLines(c);
    var kept := KeepLines(lines);
    text := Join(" ", kept);
    text := Normalize(text);
    text := CutAtTriple(text);
    text := Strip(text);
    CleanedBodyShape(content);
  }

  // ------------------------------------------------------------ the collector

  /** `TXTCollector`: the URLs it has listed stay recorded for its lifetime. */
  class Collector {
    var processedUrls: set<string>

    constructor()
      ensures processedUrls == {}
    {
      processedUrls := {};
    }

    /** `get_press_releases` on the rows of the fetched index page (None: nothing fetched). */
    method GetPressReleases(fetched: Option<seq<Row>>) returns (releases: seq<Release>)
      modifies this
      ensures Listed(processedUrls, releases) == PressReleases(TxtEra, ParseDate, old(processedUrls), fetched)
      ensures old(processedUrls) <= processedUrls
      ensures fetched.None? ==> releases == [] && processedUrls == old(processedUrls)
    {
      releases := [];
      if fetched.None? {
        return;
      }
      var rows := fetched.value;
      var i := 0;
      while i < |rows|
        invariant 0 <= i <= |rows|
        invariant Listed(processedUrls, releases) == Run(TxtEra, ParseDate, old(processedUrls), rows[..i])
      {
        ghost var before := Listed(processedUrls, releases);
        releases := CollectRow(rows[i], releases);
        assert Listed(processedUrls, releases) == Visit(TxtEra, ParseDate, before, rows[i]);
        RunSnoc(TxtEra, ParseDate, old(processedUrls), rows, i);
        i := i + 1;
      }
      assert rows[..i] == rows;
      RunFresh(TxtEra, ParseDate, old(processedUrls), rows);
    }

    /** The body of the loop of `get_press_releases` for one row. */
    method CollectRow(row: Row, found: seq<Release>) returns (releases: seq<Release>)
      modifies this
      ensures Listed(processedUrls, releases) == Visit(TxtEra, ParseDate, Listed(old(processedUrls), found), row)
    {
      releases := found;
      ghost var before := Listed(processedUrls, releases);
      var cells := row.cells;
      if |cells| >= 3 {
        var link := cells[0].anchor;
        if link.Some? {
          var href := link.value.href;
          var fullUrl := if StartsWith(href, "/") then BaseUrl + href else href;
          assert RowUrl(TxtEra, row) == Some(fullUrl);
          if fullUrl !in processedUrls {
            VisitRecords(TxtEra, ParseDate, before, row, fullUrl);
            processedUrls := processedUrls + {fullUrl};
            var formattedDate := ParseDate(cells[1].text);
            var details := cells[2].text;
            assert Headline(TxtEra, row) == details;
            if formattedDate.Some? && formattedDate.value != "" && details != "" {
              releases := releases + [Release(formattedDate.value, details, fullUrl)];
              assert RowRelease(TxtEra, ParseDate, row) == Some(Release(formattedDate.value, details, fullUrl));
            } else {
              assert RowRelease(TxtEra, ParseDate, row).None?;
            }
          } else {
            VisitSkips(TxtEra, ParseDate, before, row);
          }
        } else {
          VisitSkips(TxtEra, ParseDate, before, row);
        }
      } else {
        VisitSkips(TxtEra, ParseDate, before, row);
      }
      assert Listed(processedUrls, releases) == Visit(TxtEra, ParseDate, before, row);
    }

    /** `extract_press_release_text` on the fetched page (None or "": nothing fetched). */
    method ExtractPressReleaseText(fetched: Option<string>) returns (text: string)
      ensures fetched.None? || fetched.value == "" ==> text == ""
      ensures fetched.Some? ==> text == CleanedBody(fetched.value)
      ensures SingleSpaced(text) && NoTriple(text)
    {
      if fetched.None? || fetched.value == "" {
        CleanedBodyEmpty();
        return "";
      }
      text := CleanBody(fetched.value);
    }
  }
}
