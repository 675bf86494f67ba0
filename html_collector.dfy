/**
 * `HTMLCollector`: the listing of the HTML archive pages and the body extractor
 * for HTML releases. The extractor reads the list of `<p>...</p>` matches of the
 * page; the regular expressions it leaves abstract and the HTML-to-Markdown
 * converter are the fields of a `Library` value.
 */
module HtmlCollector {
  import opened Options
  import opened Strings
  import opened DateUtils
  import opened Listing
  import opened HtmlText

  /** The parts of the extractor that are not modelled character by character. */
  datatype Library = Library(
    /** Group 1 of the date-only search of the first pass, where it matches. */
    bracedDateCapture: string -> Option<string>,
    /** The agency-list search of the first pass. */
    isAgencyList: string -> bool,
    /** Group 1 of the three date-only searches of the second pass (em, i, b). */
    emDateCapture: string -> Option<string>,
    iDateCapture: string -> Option<string>,
    bDateCapture: string -> Option<string>,
    /** The footer, header and agency-block substitutions on `full_text`. */
    dropFooter: string -> string,
    dropHeader: string -> string,
    dropAgencies: string -> string,
    /** `html2text(text, bodywidth=0)`. */
    html2text: string -> string)

  const HeaderPrefixes: seq<string> := ["FOR IMMEDIATE RELEASE", "Modified:", "Last modified:"]
  const FooterPrefixes: seq<string> := ["Contact", "Employment", "Links", "FOIA"]

  /** Paragraph openings the second pass never keeps. */
  const ExcludedPrefixes: seq<string> :=
    ["http://", "Home", "Previous Page", "Modified:", "Last modified:", "Contact",
     "Employment", "Links", "FOIA", "Forms", "Privacy"]

  /** The date-only search of the first pass. Its pattern holds `{0,1,2}`, which
      Python reads as literal text, so it can only match a paragraph holding that text. */
  function BracedDateOnly(lib: Library, m: string): Option<string> {
    if Contains(m, "{0,1,2}") then lib.bracedDateCapture(m) else None
  }

  /** The cleaned text of a captured group, when the group matched and is not blank. */
  function Captured(g: Option<string>): (c: Option<string>)
    ensures c.Some? ==> c.value != [] && IsTrimmed(c.value)
  {
    match g
    case None => None
    case Some(x) => var d := GroupText(x); if d == [] then None else Some(d)
  }

  // ------------------------------------------------------------ the first pass

  /** What the first pass keeps of one match: its cleaned text when not blank,
      then the text of a date-only match when not blank. */
  function FirstPassStep(lib: Library, m: string): seq<string> {
    var c := CleanParagraph(m);
    (if c != [] then [c] else []) + (match Captured(BracedDateOnly(lib, m)) case None => [] case Some(d) => [d])
  }

  /** One match adds at most two entries, each non-empty and trimmed. */
  lemma FirstPassStepShape(lib: Library, m: string)
    ensures |FirstPassStep(lib, m)| <= 2
    ensures forall k :: 0 <= k < |FirstPassStep(lib, m)| ==> FirstPassStep(lib, m)[k] != [] && IsTrimmed(FirstPassStep(lib, m)[k])
  {
    PairShape(CleanParagraph(m), Captured(BracedDateOnly(lib, m)));
  }

  lemma PairShape(c: string, d: Option<string>)
    requires IsTrimmed(c)
    requires d.Some? ==> d.value != [] && IsTrimmed(d.value)
    ensures var r := (if c != [] then [c] else []) + (match d case None => [] case Some(x) => [x]);
      |r| <= 2 && forall k :: 0 <= k < |r| ==> r[k] != [] && IsTrimmed(r[k])
  {
  }

  /** The paragraphs of the first pass over the matches. */
  function FirstPassOf(lib: Library, ms: seq<string>): (ps: seq<string>)
    ensures forall k :: 0 <= k < |ps| ==> ps[k] != [] && IsTrimmed(ps[k])
  {
    if ms == [] then []
    else
      FirstPassStepShape(lib, ms[|ms| - 1]);
      FirstPassOf(lib, ms[..|ms| - 1]) + FirstPassStep(lib, ms[|ms| - 1])
  }

  /** The cleaned paragraphs that are not blank, in document order. */
  function NonBlankParagraphs(ms: seq<string>): seq<string> {
    if ms == [] then []
    else
      var c := CleanParagraph(ms[|ms| - 1]);
      NonBlankParagraphs(ms[..|ms| - 1]) + (if c != [] then [c] else [])
  }

  /** On pages without the literal `{0,1,2}`, the first pass keeps exactly the
      non-blank cleaned paragraphs, in order: none of its skip tests removes one. */
  lemma {:induction false} FirstPassKeepsAll(lib: Library, ms: seq<string>)
    requires forall k :: 0 <= k < |ms| ==> !Contains(ms[k], "{0,1,2}")
    ensures FirstPassOf(lib, ms) == NonBlankParagraphs(ms)
  {
    if ms != [] {
      var init := ms[..|ms| - 1];
      assert forall k :: 0 <= k < |init| ==> init[k] == ms[k];
      FirstPassKeepsAll(lib, init);
    }
  }

  lemma FirstPassSnoc(lib: Library, ms: seq<string>, i: nat)
    requires i < |ms|
    ensures FirstPassOf(lib, ms[..i + 1]) == FirstPassOf(lib, ms[..i]) + FirstPassStep(lib, ms[i])
  {
    assert ms[..i + 1][..i] == ms[..i];
  }

  /** One match of the first pass, with the skip tests of the source after the
      appends; the postcondition shows that none of them changes the result. */
  method FirstPassMatch(lib: Library, m: string, before: seq<string>, foundBefore: bool)
    returns (paragraphs: seq<string>, foundHeader: bool)
    ensures paragraphs == before + FirstPassStep(lib, m)
  {
    paragraphs := before;
    foundHeader := foundBefore;
    var content := EmISub(m);
    content := StripTags(content);
    content := Strip(content);
    ghost var cleaned := if content != [] then [content] else [];
    assert content == CleanParagraph(m);
    if content != [] {
      paragraphs := paragraphs + [content];
      if !foundHeader {
        foundHeader := true;
      }
    }
    assert paragraphs == before + cleaned;
    var dateOnly := BracedDateOnly(lib, m);
    if dateOnly.Some? {
      content := GroupText(dateOnly.value);
      if content != [] {
        DateOnlyStep(lib, m, before, cleaned, content);
        paragraphs := paragraphs + [content];
        foundHeader := true;
        return;
      }
    }
    assert Captured(BracedDateOnly(lib, m)).None?;
    assert content == [] || content in paragraphs;
    assert paragraphs == before + FirstPassStep(lib, m);
    if lib.isAgencyList(content) {
      return;
    }
    if HomeNews(content) {
      return;
    }
    if StartsWithAny(content, HeaderPrefixes) {
      return;
    }
    if StartsWithAny(content, FooterPrefixes) {
      return;
    }
    if foundHeader {
      if HomeNews(content) {
        return;
      }
      if StartsWithAny(content, HeaderPrefixes) {
        return;
      }
      if StartsWithAny(content, FooterPrefixes) {
        return;
      }
      if content != [] && content !in paragraphs {
        paragraphs := paragraphs + [content];
      }
    }
  }

  /** A date-only capture with text follows the cleaned paragraph in the step. */
  lemma DateOnlyStep(lib: Library, m: string, before: seq<string>, cleaned: seq<string>, d: string)
    requires cleaned == if CleanParagraph(m) != [] then [CleanParagraph(m)] else []
    requires BracedDateOnly(lib, m).Some? && d == GroupText(BracedDateOnly(lib, m).value) && d != []
    ensures before + cleaned + [d] == before + FirstPassStep(lib, m)
  {
    assert Captured(BracedDateOnly(lib, m)).Some? && Captured(BracedDateOnly(lib, m)).value == d;
  }

  /** The first pass over the `<p>` matches, `found_header` carried from match to match. */
  method FirstPass(lib: Library, matches: seq<string>) returns (paragraphs: seq<string>)
    ensures paragraphs == FirstPassOf(lib, matches)
  {
    paragraphs := [];
    var foundHeader := false;
    for i := 0 to |matches|
      invariant paragraphs == FirstPassOf(lib, matches[..i])
    {
      FirstPassSnoc(lib, matches, i);
      paragraphs, foundHeader := FirstPassMatch(lib, matches[i], paragraphs, foundHeader);
    }
    assert matches[..|matches|] == matches;
  }

  /** The joined first-pass text is blank exactly when the first pass kept nothing,
      so the second pass runs only then. */
  lemma BlankOnlyWhenEmpty(ps: seq<string>)
    requires forall k :: 0 <= k < |ps| ==> ps[k] != [] && IsTrimmed(ps[k])
    ensures AllSpace(Join("\n\n", ps)) <==> ps == []
  {
    if ps != [] {
      var j := Join("\n\n", ps);
      assert j[0] == ps[0][0];
      assert !IsSpace(j[0]);
    }
  }

  // ------------------------------------------------------------ the second pass

  /** The state of the second pass: the paragraphs so far, `content_started`, and
      whether a `break` has ended the loop. */
  datatype Pass2State = Pass2State(paragraphs: seq<string>, started: bool, stopped: bool)

  /** One match of the second pass. */
  function SecondPassStep(lib: Library, st: Pass2State, m: string): Pass2State {
    var items := TableItems(m, TableFields);
    if IsTableMatch(m) && items != [] then
      Pass2State(st.paragraphs + items, st.started, true)
    else if Captured(lib.emDateCapture(m)).Some? then
      st.(paragraphs := st.paragraphs + [Captured(lib.emDateCapture(m)).value])
    else if Captured(lib.iDateCapture(m)).Some? then
      st.(paragraphs := st.paragraphs + [Captured(lib.iDateCapture(m)).value])
    else if Captured(lib.bDateCapture(m)).Some? then
      st.(paragraphs := st.paragraphs + [Captured(lib.bDateCapture(m)).value])
    else ParagraphStep(st, CleanParagraph(m), HasHeading(m))
  }

  /** The second pass on a match that is neither a table nor a dated line: its
      cleaned text c, and whether the match holds a heading. */
  function ParagraphStep(st: Pass2State, c: string, heading: bool): Pass2State {
    if ContainsAny(c, EndMarks) then st.(stopped := true)
    else if HomeNews(c) || StartsWithAny(c, HeaderPrefixes) || StartsWithAny(c, FooterPrefixes) then st
    else
      var started := st.started || heading;
      if started && c != [] && !StartsWithAny(c, ExcludedPrefixes) then
        var gap := if IsUpperAscii(c[0]) && st.paragraphs != [] then [""] else [];
        Pass2State(st.paragraphs + gap + [c], started, false)
      else st.(started := started)
  }

  /** The second pass from state st over the matches ms, until it stops. */
  function SecondPassFrom(lib: Library, st: Pass2State, ms: seq<string>): Pass2State
    decreases |ms|
  {
    if ms == [] || st.stopped then st else SecondPassFrom(lib, SecondPassStep(lib, st, ms[0]), ms[1..])
  }

  const Pass2Start := Pass2State([], false, false)

  /** The paragraphs of the second pass over the matches. */
  function SecondPassOf(lib: Library, ms: seq<string>): seq<string> {
    SecondPassFrom(lib, Pass2Start, ms).paragraphs
  }

  /** One match of the second pass; `stop` is the source's `break`. */
  method SecondPassMatch(lib: Library, m: string, before: seq<string>, startedBefore: bool)
    returns (paragraphs: seq<string>, contentStarted: bool, stop: bool)
    ensures Pass2State(paragraphs, contentStarted, stop) == SecondPassStep(lib, Pass2State(before, startedBefore, false), m)
  {
    paragraphs := before;
    contentStarted := startedBefore;
    stop := false;
    if Contains(m, "<table") && (Contains(m, "What:") || Contains(m, "Who:") || Contains(m, "When:")) {
      var tableItems := CollectTableItems(m);
      if tableItems != [] {
        paragraphs := paragraphs + tableItems;
        stop := true;
        return;
      }
    }
    var dated := Captured(lib.emDateCapture(m));
    if dated.Some? {
      paragraphs := paragraphs + [dated.value];
      return;
    }
    dated := Captured(lib.iDateCapture(m));
    if dated.Some? {
      paragraphs := paragraphs + [dated.value];
      return;
    }
    dated := Captured(lib.bDateCapture(m));
    if dated.Some? {
      paragraphs := paragraphs + [dated.value];
      return;
    }
    paragraphs, contentStarted, stop := ParagraphMatch(m, before, startedBefore);
  }

  /** The rest of one match of the second pass, once it is neither a table
      nor a dated line. */
  method ParagraphMatch(m: string, before: seq<string>, startedBefore: bool)
    returns (paragraphs: seq<string>, contentStarted: bool, stop: bool)
    ensures Pass2State(paragraphs, contentStarted, stop)
      == ParagraphStep(Pass2State(before, startedBefore, false), CleanParagraph(m), HasHeading(m))
  {
    paragraphs := before;
    contentStarted := startedBefore;
    stop := false;
    var content := EmISub(m);
    content := StripTags(content);
    content := Strip(content);
    if ContainsAny(content, EndMarks) {
      stop := true;
      return;
    }
    if HomeNews(content) {
      return;
    }
    if StartsWithAny(content, HeaderPrefixes) {
      return;
    }
    if StartsWithAny(content, FooterPrefixes) {
      return;
    }
    if HasHeading(m) {
      contentStarted := true;
    }
    if contentStarted && content != [] && !StartsWithAny(content, ExcludedPrefixes) {
      if IsUpperAscii(content[0]) && |paragraphs| > 0 {
        paragraphs := paragraphs + [""];
      }
      paragraphs := paragraphs + [content];
    }
  }

  /** The second pass over the `<p>` matches, run when the first pass kept nothing:
      the loop ends at the first table with fields or paragraph with an end marker. */
  method SecondPass(lib: Library, matches: seq<string>) returns (paragraphs: seq<string>)
    ensures paragraphs == SecondPassOf(lib, matches)
  {
    paragraphs := [];
    var contentStarted := false;
    var i := 0;
    while i < |matches|
      invariant 0 <= i <= |matches|
      invariant SecondPassFrom(lib, Pass2State(paragraphs, contentStarted, false), matches[i..]) == SecondPassFrom(lib, Pass2Start, matches)
    {
      assert matches[i..][1..] == matches[i + 1..];
      var stop;
      paragraphs, contentStarted, stop := SecondPassMatch(lib, matches[i], paragraphs, contentStarted);
      if stop {
        break;
      }
      i := i + 1;
    }
  }

  // ------------------------------------------------------------ properties of the second pass

  /** A blank entry, the extra paragraph break before a capitalised paragraph,
      stands only between two non-blank entries. */
  predicate WellSpaced(ps: seq<string>) {
    forall k :: 0 <= k < |ps| && ps[k] == [] ==> 0 < k < |ps| - 1 && ps[k - 1] != [] && ps[k + 1] != []
  }

  lemma AppendNonBlank(ps: seq<string>, items: seq<string>)
    requires WellSpaced(ps) && forall k :: 0 <= k < |items| ==> items[k] != []
    ensures WellSpaced(ps + items)
  {
    var r := ps + items;
    forall k | 0 <= k < |r| && r[k] == []
      ensures 0 < k < |r| - 1 && r[k - 1] != [] && r[k + 1] != []
    {
      assert k < |ps| && r[k] == ps[k];
      assert r[k - 1] == ps[k - 1] && r[k + 1] == ps[k + 1];
    }
  }

  lemma AppendGap(ps: seq<string>, c: string)
    requires WellSpaced(ps) && ps != [] && c != []
    ensures WellSpaced(ps + [""] + [c])
  {
    var r := ps + [""] + [c];
    assert ps[|ps| - 1] != [];
    forall k | 0 <= k < |r| && r[k] == []
      ensures 0 < k < |r| - 1 && r[k - 1] != [] && r[k + 1] != []
    {
      if k < |ps| {
        assert r[k] == ps[k];
        assert r[k - 1] == ps[k - 1] && r[k + 1] == ps[k + 1];
      } else {
        assert k == |ps|;
      }
    }
  }

  lemma StepWellSpaced(lib: Library, st: Pass2State, m: string)
    requires WellSpaced(st.paragraphs)
    ensures WellSpaced(SecondPassStep(lib, st, m).paragraphs)
  {
    var items := TableItems(m, TableFields);
    if IsTableMatch(m) && items != [] {
      AppendNonBlank(st.paragraphs, items);
    } else if Captured(lib.emDateCapture(m)).Some? {
      AppendNonBlank(st.paragraphs, [Captured(lib.emDateCapture(m)).value]);
    } else if Captured(lib.iDateCapture(m)).Some? {
      AppendNonBlank(st.paragraphs, [Captured(lib.iDateCapture(m)).value]);
    } else if Captured(lib.bDateCapture(m)).Some? {
      AppendNonBlank(st.paragraphs, [Captured(lib.bDateCapture(m)).value]);
    } else {
      ParagraphStepWellSpaced(st, CleanParagraph(m), HasHeading(m));
    }
  }

  lemma ParagraphStepWellSpaced(st: Pass2State, c: string, heading: bool)
    requires WellSpaced(st.paragraphs)
    ensures WellSpaced(ParagraphStep(st, c, heading).paragraphs)
  {
    if c != [] {
      if IsUpperAscii(c[0]) && st.paragraphs != [] {
        AppendGap(st.paragraphs, c);
      } else {
        AppendNonBlank(st.paragraphs, [c]);
        assert st.paragraphs + [] + [c] == st.paragraphs + [c];
      }
    }
  }

  lemma {:induction false} SecondPassFromWellSpaced(lib: Library, st: Pass2State, ms: seq<string>)
    requires WellSpaced(st.paragraphs)
    ensures WellSpaced(SecondPassFrom(lib, st, ms).paragraphs)
    decreases |ms|
  {
    if ms != [] && !st.stopped {
      StepWellSpaced(lib, st, ms[0]);
      SecondPassFromWellSpaced(lib, SecondPassStep(lib, st, ms[0]), ms[1..]);
    }
  }

  /** The second pass never starts or ends with a blank entry, nor puts two in a row. */
  lemma SecondPassWellSpaced(lib: Library, ms: seq<string>)
    ensures WellSpaced(SecondPassOf(lib, ms))
  {
    SecondPassFromWellSpaced(lib, Pass2Start, ms);
  }

  /** Running over two stretches of matches is running over the first, then the second. */
  lemma {:induction false} SecondPassFromAppend(lib: Library, st: Pass2State, a: seq<string>, b: seq<string>)
    ensures SecondPassFrom(lib, st, a + b) == SecondPassFrom(lib, SecondPassFrom(lib, st, a), b)
    decreases |a|
  {
    if a != [] && !st.stopped {
      assert (a + b)[1..] == a[1..] + b;
      SecondPassFromAppend(lib, SecondPassStep(lib, st, a[0]), a[1..], b);
    } else if a == [] {
      assert a + b == b;
    }
  }

  /** The `break`: once a table or an end marker has stopped the pass, the
      matches after it make no difference. */
  lemma BreakIgnoresRest(lib: Library, a: seq<string>, b: seq<string>)
    requires SecondPassFrom(lib, Pass2Start, a).stopped
    ensures SecondPassOf(lib, a + b) == SecondPassOf(lib, a)
  {
    SecondPassFromAppend(lib, Pass2Start, a, b);
  }

  /** A reached paragraph holding an end marker, with no table fields or date-only
      form before that test, ends the pass: it and every match after it add nothing. */
  lemma MarkerStops(lib: Library, a: seq<string>, m: string, b: seq<string>)
    requires !SecondPassFrom(lib, Pass2Start, a).stopped
    requires !(IsTableMatch(m) && TableItems(m, TableFields) != [])
    requires Captured(lib.emDateCapture(m)).None? && Captured(lib.iDateCapture(m)).None?
    requires Captured(lib.bDateCapture(m)).None?
    requires ContainsAny(CleanParagraph(m), EndMarks)
    ensures SecondPassOf(lib, a + [m] + b) == SecondPassOf(lib, a)
  {
    var st := SecondPassFrom(lib, Pass2Start, a);
    SecondPassFromAppend(lib, Pass2Start, a, [m] + b);
    assert a + [m] + b == a + ([m] + b);
    assert ([m] + b)[0] == m && ([m] + b)[1..] == b;
    assert SecondPassStep(lib, st, m) == st.(stopped := true);
  }

  /** A match that can neither open the content nor add anything before it does:
      no `<h1>`/`<h2>` tag, no table with fields, no date-only form. */
  predicate Quiet(lib: Library, m: string) {
    !HasHeading(m) && !(IsTableMatch(m) && TableItems(m, TableFields) != [])
    && Captured(lib.emDateCapture(m)).None? && Captured(lib.iDateCapture(m)).None?
    && Captured(lib.bDateCapture(m)).None?
  }

  lemma {:induction false} QuietFrom(lib: Library, stopped: bool, ms: seq<string>)
    requires forall k :: 0 <= k < |ms| ==> Quiet(lib, ms[k])
    ensures SecondPassFrom(lib, Pass2State([], false, stopped), ms).paragraphs == []
    decreases |ms|
  {
    if ms != [] && !stopped {
      var next := SecondPassStep(lib, Pass2State([], false, false), ms[0]);
      assert next.paragraphs == [] && !next.started;
      assert forall k :: 0 <= k < |ms[1..]| ==> ms[1..][k] == ms[k + 1];
      QuietFrom(lib, next.stopped, ms[1..]);
    }
  }

  /** Without a heading, a table with fields or a date-only form, the second pass keeps nothing. */
  lemma QuietPageEmpty(lib: Library, ms: seq<string>)
    requires forall k :: 0 <= k < |ms| ==> Quiet(lib, ms[k])
    ensures SecondPassOf(lib, ms) == []
  {
    QuietFrom(lib, false, ms);
  }

  // ------------------------------------------------------------ the result

  /** The first pass's paragraphs, or the second pass's when the first kept nothing. */
  function ChosenParagraphs(lib: Library, ms: seq<string>): seq<string> {
    var first := FirstPassOf(lib, ms);
    if first == [] then SecondPassOf(lib, ms) else first
  }

  /** The clean-up of `full_text` before conversion: footer, header and agency
      substitutions, the cut through the first dash of every line, strip, the
      marker lines, the blank-line collapse, strip. */
  function CleanedFullText(lib: Library, fullText: string): (r: string)
    ensures IsTrimmed(r) && NoNewlineTriple(r)
  {
    var cut := Strip(DashCut(lib.dropAgencies(lib.dropHeader(lib.dropFooter(fullText)))));
    var c := CollapseNewlines(RemoveMarkerLines(cut));
    NoNewlineTripleSlice(c, LeadingSpaces(c), LeadingSpaces(c) + |Strip(c)|);
    Strip(c)
  }

  /** The end of the extractor: cut before the end marks, then strip. The result
      is trimmed and holds none of the end marks. */
  function Finished(markdown: string): (r: string)
    ensures IsTrimmed(r)
    ensures forall k :: 0 <= k < |EndMarks| ==> !Contains(r, EndMarks[k])
    ensures exists n :: 0 <= n <= |markdown| && r == Strip(markdown[..n])
  {
    var md := TruncatedBy(markdown, EndMarks);
    assert md == markdown[..|md|];
    var a := LeadingSpaces(md);
    forall k | 0 <= k < |EndMarks|
      ensures !Contains(Strip(md), EndMarks[k])
    {
      NotContainsSlice(md, EndMarks[k], a, a + |Strip(md)|);
    }
    Strip(md)
  }

  /** The release body: the chosen paragraphs joined by blank lines, cleaned,
      converted and finished; "" when nothing was fetched. */
  function ExtractedText(lib: Library, fetched: Option<seq<string>>): string {
    match fetched
    case None => ""
    case Some(ms) => Finished(lib.html2text(CleanedFullText(lib, Join("\n\n", ChosenParagraphs(lib, ms)))))
  }

  /** A converted text that is already trimmed and holds no end mark is the result as it is. */
  lemma FinishedClean(md: string)
    requires IsTrimmed(md) && forall k :: 0 <= k < |EndMarks| ==> !Contains(md, EndMarks[k])
    ensures Finished(md) == md
  {
    TruncatedByClean(md, EndMarks);
    StripOfTrimmed(md);
  }

  // ------------------------------------------------------------ the collector

  class Collector {
    var processedUrls: set<string>

    constructor()
      ensures processedUrls == {}
    {
      processedUrls := {};
    }

    /** `get_press_releases` on the table rows of the fetched archive page (None: nothing fetched). */
    method GetPressReleases(fetched: Option<seq<Row>>) returns (releases: seq<Release>)
      modifies this
      ensures Listed(processedUrls, releases) == PressReleases(HtmlEra, ParseDate, old(processedUrls), fetched)
      ensures old(processedUrls) <= processedUrls
      ensures forall k :: 0 <= k < |releases| ==> releases[k].url != [] && releases[k].url !in old(processedUrls)
      ensures fetched.None? ==> releases == [] && processedUrls == old(processedUrls)
    {
      releases := [];
      if fetched.None? {
        return;
      }
      var rows := fetched.value;
      var i := 0;
      while i < |rows|
        invariant 0 <= i <= |rows|
        invariant Listed(processedUrls, releases) == Run(HtmlEra, ParseDate, old(processedUrls), rows[..i])
      {
        ghost var before := Listed(processedUrls, releases);
        releases := CollectRow(rows[i], releases);
        assert Listed(processedUrls, releases) == Visit(HtmlEra, ParseDate, before, rows[i]);
        RunSnoc(HtmlEra, ParseDate, old(processedUrls), rows, i);
        i := i + 1;
      }
      assert rows[..i] == rows;
      RunFresh(HtmlEra, ParseDate, old(processedUrls), rows);
      HtmlUrlsNonEmpty(ParseDate, old(processedUrls), rows);
      assert forall k :: 0 <= k < |releases| ==> releases[k] in releases;
    }

    /** The body of the loop of `get_press_releases` for one row. */
    method CollectRow(row: Row, found: seq<Release>) returns (releases: seq<Release>)
      modifies this
      ensures Listed(processedUrls, releases) == Visit(HtmlEra, ParseDate, Listed(old(processedUrls), found), row)
    {
      releases := found;
      ghost var before := Listed(processedUrls, releases);
      var cells := row.cells;
      if |cells| >= 3 {
        var link := cells[0].anchor;
        if link.None? {
          VisitSkips(HtmlEra, ParseDate, before, row);
        } else if link.value.href == "" {
          VisitSkips(HtmlEra, ParseDate, before, row);
        } else {
          var href := link.value.href;
          var fullUrl := if StartsWith(href, "/") then BaseUrl + href else href;
          assert RowUrl(HtmlEra, row) == Some(fullUrl);
          if fullUrl in processedUrls {
            VisitSkips(HtmlEra, ParseDate, before, row);
          } else {
            VisitRecords(HtmlEra, ParseDate, before, row, fullUrl);
            processedUrls := processedUrls + {fullUrl};
            var formattedDate := ParseDate(cells[1].text);
            var details := "";
            if |cells| >= 3 {
              details := cells[2].text;
            }
            if details == "" {
              details := link.value.text;
            }
            assert Headline(HtmlEra, row) == details;
            if formattedDate.Some? && formattedDate.value != "" && details != "" {
              releases := releases + [Release(formattedDate.value, details, fullUrl)];
              assert RowRelease(HtmlEra, ParseDate, row) == Some(Release(formattedDate.value, details, fullUrl));
            } else {
              assert RowRelease(HtmlEra, ParseDate, row).None?;
            }
          }
        }
      } else {
        VisitSkips(HtmlEra, ParseDate, before, row);
      }
      assert Listed(processedUrls, releases) == Visit(HtmlEra, ParseDate, before, row);
    }

    /** `extract_press_release_text` on the `<p>` matches of the fetched page
        (None: the page could not be fetched or was empty). */
    method ExtractPressReleaseText(lib: Library, fetched: Option<seq<string>>) returns (text: string)
      ensures text == ExtractedText(lib, fetched)
      ensures fetched.None? ==> text == ""
      ensures IsTrimmed(text) && forall k :: 0 <= k < |EndMarks| ==> !Contains(text, EndMarks[k])
    {
      if fetched.None? {
        return "";
      }
      var matches := fetched.value;
      var paragraphs := FirstPass(lib, matches);
      var fullText := if |paragraphs| > 0 then Join("\n\n", paragraphs) else "";
      BlankOnlyWhenEmpty(paragraphs);
      if Strip(fullText) == [] {
        paragraphs := SecondPass(lib, matches);
      }
      assert paragraphs == ChosenParagraphs(lib, matches);
      fullText := if |paragraphs| > 0 then Join("\n\n", paragraphs) else "";
      fullText := lib.dropFooter(fullText);
      fullText := lib.dropHeader(fullText);
      fullText := lib.dropAgencies(fullText);
      fullText := Strip(DashCut(fullText));
      fullText := RemoveMarkerLines(fullText);
      fullText := CollapseNewlines(fullText);
      fullText := Strip(fullText);
      var markdown := lib.html2text(fullText);
      markdown := TruncateAtEndMarks(markdown);
      text := Strip(markdown);
      assert text == Finished(lib.html2text(fullText));
    }
  }
}
