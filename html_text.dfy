/**
 * The regular expressions of the HTML body extractor that the model states
 * concretely, each as a left-to-right scan with Python `re` semantics
 * (leftmost match, lazy and greedy quantifiers, `re.sub` resuming after a match).
 */
module HtmlText {
  import opened Options
  import opened Strings

  // ---------------------------------------------------------------- tags

  /** `<[^>]+>` at p: the index just past the tag. The run of non-'>' characters
      is greedy and may hold newlines and '<'; it must not be empty. */
  function TagAt(s: string, p: nat): (e: Option<nat>)
    requires p <= |s|
    ensures e.Some? ==> p + 3 <= e.value <= |s| && s[p] == '<' && s[e.value - 1] == '>'
    ensures e.Some? ==> forall j :: p < j < e.value - 1 ==> s[j] != '>'
    ensures e.Some? <==> p + 1 < |s| && s[p] == '<' && s[p + 1] != '>' && '>' in s[p + 1..]
  {
    if p == |s| || s[p] != '<' then None
    else
      FindGreater(s, p + 1);
      match FindFrom(s, ">", p + 1)
      case None => None
      case Some(q) => if q == p + 1 then None else Some(q + 1)
  }

  /** Searching for ">" finds the first '>' character, and finds one exactly when there is one. */
  lemma FindGreater(s: string, k: nat)
    requires k <= |s|
    ensures FindFrom(s, ">", k).Some? <==> '>' in s[k..]
    ensures FindFrom(s, ">", k).Some? ==>
      var q := FindFrom(s, ">", k).value;
      q < |s| && s[q] == '>' && forall j :: k <= j < q ==> s[j] != '>'
  {
    var r := FindFrom(s, ">", k);
    if r.Some? {
      var q := r.value;
      assert s[q..q + 1] == [s[q]];
      assert s[k..][q - k] == s[q];
      forall j | k <= j < q
        ensures s[j] != '>'
      {
        assert !OccursAt(s, ">", j);
        assert s[j..j + 1] == [s[j]];
      }
    } else {
      NoGreater(s, k);
    }
  }

  /** No tag is left: every '<' is followed at once by '>', or by no '>' at all. */
  predicate NoTag(r: string) {
    forall i :: 0 <= i < |r| - 1 && r[i] == '<' && r[i + 1] != '>' ==> '>' !in r[i + 1..]
  }

  lemma NoGreater(s: string, k: nat)
    requires k <= |s| && FindFrom(s, ">", k).None?
    ensures '>' !in s[k..]
  {
    forall j | k <= j < |s|
      ensures s[j] != '>'
    {
      assert !OccursAt(s, ">", j);
      assert s[j..j + 1] == [s[j]];
    }
  }

  lemma NoTagCons(c: char, t: string)
    requires NoTag(t)
    requires c == '<' && t != [] && t[0] != '>' ==> '>' !in t
    ensures NoTag([c] + t)
  {
    var r := [c] + t;
    forall i | 0 <= i < |r| - 1 && r[i] == '<' && r[i + 1] != '>'
      ensures '>' !in r[i + 1..]
    {
      if i > 0 {
        assert r[i + 1..] == t[i..];
        assert t[i - 1] == '<' && t[i] != '>';
      } else {
        assert r[1..] == t;
      }
    }
  }

  /** The first character of s starts no tag, so it stays in front of what is
      kept of the rest, t, without forming a tag with it. */
  lemma StripTagsCons(s: string, t: string)
    requires s != [] && TagAt(s, 0).None? && NoTag(t)
    requires forall c :: c in t ==> c in s[1..]
    requires |s| > 1 && s[1] == '>' ==> t != [] && t[0] == '>'
    ensures NoTag([s[0]] + t)
  {
    if s[0] == '<' && t != [] && t[0] != '>' && FindFrom(s, ">", 1).None? {
      NoGreater(s, 1);
    }
    NoTagCons(s[0], t);
  }

  /** `re.sub(r'<[^>]+>', '', s)`: every tag removed, other characters kept in order. */
  function StripTags(s: string): (r: string)
    ensures |r| <= |s|
    ensures forall c :: c in r ==> c in s
    ensures s != [] && s[0] == '>' ==> r != [] && r[0] == '>'
    ensures NoTag(r)
    decreases |s|
  {
    if s == [] then []
    else match TagAt(s, 0)
      case Some(e) =>
        var r := StripTags(s[e..]);
        assert forall c :: c in s[e..] ==> c in s;
        r
      case None =>
        var t := StripTags(s[1..]);
        assert forall c :: c in s[1..] ==> c in s;
        StripTagsCons(s, t);
        [s[0]] + t
  }

  /** Text without '<' is copied through unchanged. */
  lemma {:induction false} StripTagsPlainPrefix(w: string, s: string)
    requires '<' !in w
    ensures StripTags(w + s) == w + StripTags(s)
    decreases |w|
  {
    if w != [] {
      var ws := w + s;
      assert ws[0] == w[0] && w[0] != '<';
      assert TagAt(ws, 0).None?;
      assert ws[1..] == w[1..] + s;
      assert StripTags(ws) == [w[0]] + StripTags(w[1..] + s);
      StripTagsPlainPrefix(w[1..], s);
      assert w == [w[0]] + w[1..];
    } else {
      assert w + s == s;
    }
  }

  /** A tag `<x>` is removed and the scan resumes just after its '>'. */
  lemma StripTagsDropsTag(x: string, rest: string)
    requires x != [] && '>' !in x
    ensures StripTags("<" + x + ">" + rest) == StripTags(rest)
  {
    var s := "<" + x + ">" + rest;
    assert s[|x| + 1] == '>';
    forall j | 1 <= j < |x| + 1
      ensures s[j] != '>'
    {
      assert s[j] == x[j - 1];
    }
    FindGreater(s, 1);
    assert s[|x| + 2..] == rest;
  }

  /** Text before a tag is kept, the tag goes, and the rest is stripped in turn. */
  lemma StripTagsKeepsText(w: string, x: string, rest: string)
    requires '<' !in w && x != [] && '>' !in x
    ensures StripTags(w + "<" + x + ">" + rest) == w + StripTags(rest)
  {
    TagRegroup(w, "<", x, ">", rest);
    StripTagsPlainPrefix(w, "<" + x + ">" + rest);
    StripTagsDropsTag(x, rest);
  }

  lemma TagRegroup(w: string, a: string, x: string, b: string, rest: string)
    ensures w + a + x + b + rest == w + (a + x + b + rest)
  {
  }

  /** A tag-free text has no tag at its first character. */
  lemma NoTagHead(r: string)
    requires r != [] && NoTag(r)
    ensures TagAt(r, 0).None?
  {
    if r[0] == '<' && |r| > 1 && r[1] != '>' {
      assert '>' !in r[1..];
      if FindFrom(r, ">", 1).Some? {
        var q := FindFrom(r, ">", 1).value;
        assert r[q..q + 1] == ">";
        assert r[q] in r[1..];
      }
    }
  }

  /** Text without tags is left as it is: removing tags twice removes nothing more. */
  lemma {:induction false} NoTagFixed(r: string)
    requires NoTag(r)
    ensures StripTags(r) == r
    decreases |r|
  {
    if r != [] {
      NoTagHead(r);
      var t := r[1..];
      assert NoTag(t) by {
        forall i | 0 <= i < |t| - 1 && t[i] == '<' && t[i + 1] != '>'
          ensures '>' !in t[i + 1..]
        {
          assert r[i + 1] == '<' && r[i + 2] != '>';
          assert t[i + 1..] == r[i + 2..];
        }
      }
      NoTagFixed(t);
    }
  }

  /** Removing tags is idempotent. */
  lemma StripTagsIdempotent(s: string)
    ensures StripTags(StripTags(s)) == StripTags(s)
  {
    NoTagFixed(StripTags(s));
  }

  /** A slice of a tag-free text is tag-free. */
  lemma NoTagSlice(r: string, a: nat, b: nat)
    requires a <= b <= |r| && NoTag(r)
    ensures NoTag(r[a..b])
  {
    var t := r[a..b];
    forall i | 0 <= i < |t| - 1 && t[i] == '<' && t[i + 1] != '>'
      ensures '>' !in t[i + 1..]
    {
      assert r[a + i] == '<' && r[a + i + 1] != '>';
      assert '>' !in r[a + i + 1..];
      assert t[i + 1..] == r[a + i + 1..b];
    }
  }

  /** Stripping a tag-free text leaves it tag-free. */
  lemma StripNoTag(t: string)
    requires NoTag(t)
    ensures NoTag(Strip(t))
  {
    var a, r := LeadingSpaces(t), Strip(t);
    assert r == t[a..a + |r|];
    NoTagSlice(t, a, a + |r|);
  }

  // ---------------------------------------------------------------- <em> and <i>

  /** Length of an `<em>` or `<i>` opening tag at p, or 0. */
  function EmOpenAt(s: string, p: nat): (n: nat)
    ensures n > 0 ==> p + n <= |s| && s[p] == '<'
  {
    if p + 4 <= |s| && s[p] == '<' && s[p + 1] == 'e' && s[p + 2] == 'm' && s[p + 3] == '>' then 4
    else if p + 3 <= |s| && s[p] == '<' && s[p + 1] == 'i' && s[p + 2] == '>' then 3
    else 0
  }

  /** Length of an `</em>` or `</i>` closing tag at q, or 0. */
  function EmCloseAt(s: string, q: nat): (n: nat)
    ensures n > 0 ==> q + n <= |s|
  {
    if q + 5 <= |s| && s[q] == '<' && s[q + 1] == '/' && s[q + 2] == 'e' && s[q + 3] == 'm' && s[q + 4] == '>' then 5
    else if q + 4 <= |s| && s[q] == '<' && s[q + 1] == '/' && s[q + 2] == 'i' && s[q + 3] == '>' then 4
    else 0
  }

  /** `.*?</(?:em|i)>` from q: where the first closing tag starts, the lazy `.`
      not crossing a newline. */
  function EmCloseFrom(s: string, q: nat): (c: Option<nat>)
    requires q <= |s|
    ensures c.Some? ==> q <= c.value && EmCloseAt(s, c.value) > 0 && '\n' !in s[q..c.value]
    ensures c.Some? ==> forall j :: q <= j < c.value ==> EmCloseAt(s, j) == 0
    ensures c.None? ==> forall j :: q <= j <= |s| && '\n' !in s[q..j] ==> EmCloseAt(s, j) == 0
    decreases |s| - q
  {
    if EmCloseAt(s, q) > 0 then Some(q)
    else if q == |s| || s[q] == '\n' then
      NewlineBlocks(s, q);
      None
    else
      var c := EmCloseFrom(s, q + 1);
      if c.Some? then
        EmCloseSomeStep(s, q, c.value);
        c
      else
        EmCloseNoneStep(s, q);
        c
  }

  /** A closing tag found from q + 1 is the first one from q when q holds neither a newline nor a closing tag. */
  lemma EmCloseSomeStep(s: string, q: nat, c: nat)
    requires q < c <= |s| && s[q] != '\n' && EmCloseAt(s, q) == 0
    requires '\n' !in s[q + 1..c] && forall j :: q + 1 <= j < c ==> EmCloseAt(s, j) == 0
    ensures '\n' !in s[q..c] && forall j :: q <= j < c ==> EmCloseAt(s, j) == 0
  {
    assert s[q..c] == [s[q]] + s[q + 1..c];
  }

  /** No closing tag on the line from q + 1 and none at q: none on the line from q. */
  lemma EmCloseNoneStep(s: string, q: nat)
    requires q < |s| && s[q] != '\n' && EmCloseAt(s, q) == 0
    requires forall j :: q + 1 <= j <= |s| && '\n' !in s[q + 1..j] ==> EmCloseAt(s, j) == 0
    ensures forall j :: q <= j <= |s| && '\n' !in s[q..j] ==> EmCloseAt(s, j) == 0
  {
    NewlineFreeTail(s, q);
  }

  /** From a newline (or the end) on, every longer stretch holds that newline. */
  lemma NewlineBlocks(s: string, q: nat)
    requires q <= |s| && (q == |s| || s[q] == '\n')
    ensures forall j :: q < j <= |s| ==> '\n' in s[q..j]
  {
    forall j | q < j <= |s|
      ensures '\n' in s[q..j]
    {
      assert s[q..j][0] == s[q];
    }
  }

  /** A newline-free stretch from q, past q, is newline-free from q + 1. */
  lemma NewlineFreeTail(s: string, q: nat)
    requires q < |s|
    ensures forall j :: q < j <= |s| && '\n' !in s[q..j] ==> '\n' !in s[q + 1..j]
  {
    forall j | q < j <= |s| && '\n' !in s[q..j]
      ensures '\n' !in s[q + 1..j]
    {
      assert s[q + 1..j] == s[q..j][1..];
    }
  }

  /** `re.sub(r'<(?:em|i)>(.*?)</(?:em|i)>', r'\1', s)`: each emphasised span on
      one line loses its two tags. */
  function EmISub(s: string): (r: string)
    ensures |r| <= |s|
    ensures '<' !in s ==> r == s
    decreases |s|
  {
    if s == [] then []
    else
      var o := EmOpenAt(s, 0);
      if o > 0 && EmCloseFrom(s, o).Some? then
        var c := EmCloseFrom(s, o).value;
        s[o..c] + EmISub(s[c + EmCloseAt(s, c)..])
      else
        assert '<' !in s ==> '<' !in s[1..];
        [s[0]] + EmISub(s[1..])
  }

  /** No tag starts at a character other than '<'. */
  lemma NoEmAt(s: string, q: nat)
    requires q < |s| && s[q] != '<'
    ensures EmOpenAt(s, q) == 0 && EmCloseAt(s, q) == 0
  {
    if q + 3 <= |s| { assert s[q..q + 3][0] == s[q]; }
    if q + 4 <= |s| { assert s[q..q + 4][0] == s[q]; }
    if q + 5 <= |s| { assert s[q..q + 5][0] == s[q]; }
  }

  /** The lazy search for a closing tag stops at the first one when no closing
      tag and no newline come before it. */
  lemma {:induction false} EmCloseReaches(s: string, q: nat, c: nat)
    requires q <= c <= |s| && EmCloseAt(s, c) > 0
    requires forall j :: q <= j < c ==> EmCloseAt(s, j) == 0 && s[j] != '\n'
    ensures EmCloseFrom(s, q) == Some(c)
    decreases c - q
  {
    if q < c {
      EmCloseReaches(s, q + 1, c);
    }
  }

  /** No `</em>` or `</i>` starts anywhere in w. */
  predicate NoEmClose(w: string) {
    forall j :: 0 <= j < |w| ==> EmCloseAt(w, j) == 0
  }

  /** A text that starts with '<' cannot complete a closing tag begun in w. */
  lemma EmCloseExtend(w: string, t: string, j: nat)
    requires j < |w| && EmCloseAt(w, j) == 0 && (t == [] || t[0] == '<')
    ensures EmCloseAt(w + t, j) == 0
  {
    var s := w + t;
    if j + 5 <= |w| {
      assert s[j..j + 5] == w[j..j + 5];
    } else if j + 5 <= |s| {
      assert s[j..j + 5][|w| - j] == s[|w|] == t[0];
    }
    if j + 4 <= |w| {
      assert s[j..j + 4] == w[j..j + 4];
    } else if j + 4 <= |s| {
      assert s[j..j + 4][|w| - j] == s[|w|] == t[0];
    }
  }

  /** A closing tag in u is one in `v + u`, shifted by |v|. */
  lemma EmCloseShift(v: string, u: string, j: nat)
    requires j < |u|
    ensures EmCloseAt(v + u, |v| + j) == EmCloseAt(u, j)
  {
    var s := v + u;
    if j + 4 <= |u| { assert s[|v| + j..|v| + j + 4] == u[j..j + 4]; }
    if j + 5 <= |u| { assert s[|v| + j..|v| + j + 5] == u[j..j + 5]; }
  }

  /** An opening tag at the start of a text, and its length. */
  lemma EmOpening(open: string, u: string)
    requires open == "<em>" || open == "<i>"
    ensures EmOpenAt(open + u, 0) == |open|
  {
    var s := open + u;
    assert s[..|open|] == open;
    if open == "<i>" && |s| >= 4 {
      assert s[0..4][1] == 'i';
    }
  }

  /** A closing tag at index c, and its length. */
  lemma EmClosing(v: string, close: string, u: string)
    requires close == "</em>" || close == "</i>"
    ensures EmCloseAt(v + close + u, |v|) == |close|
  {
    var s := v + close + u;
    assert s[|v|..|v| + |close|] == close;
    if close == "</i>" && |s| >= |v| + 5 {
      assert s[|v|..|v| + 5][2] == 'i';
    }
  }

  /** One step of the substitution: a span that opens at 0 and closes at c. */
  lemma EmISubStep(s: string, o: nat, c: nat, k: nat)
    requires 0 < o <= c && c + k <= |s| && EmOpenAt(s, 0) == o
    requires EmCloseFrom(s, o) == Some(c) && EmCloseAt(s, c) == k
    ensures EmISub(s) == s[o..c] + EmISub(s[c + k..])
  {
    var rest := EmISub(s[c + k..]);
    assert EmISub(s) == s[o..c] + rest;
  }

  /** The text between the tags is searched for the closing tag without a stop,
      so the search from just after the opening tag ends at the closing tag. */
  lemma EmSpanCloses(open: string, w: string, close: string, rest: string)
    requires close == "</em>" || close == "</i>"
    requires '\n' !in w && NoEmClose(w)
    ensures EmCloseFrom(open + w + close + rest, |open|) == Some(|open| + |w|)
  {
    var s := open + w + close + rest;
    var u := w + (close + rest);
    assert s == open + u;
    forall j | |open| <= j < |open| + |w|
      ensures EmCloseAt(s, j) == 0 && s[j] != '\n'
    {
      EmCloseExtend(w, close + rest, j - |open|);
      EmCloseShift(open, u, j - |open|);
      assert s[j] == w[j - |open|];
    }
    EmClosing(open + w, close, rest);
    EmCloseReaches(s, |open|, |open| + |w|);
  }

  /** `re.sub` puts the text of an emphasised span in place of the span: an
      opening tag, text with no closing tag and no newline, and a closing tag
      become that text, and the substitution resumes after the closing tag. */
  lemma EmISubUnwraps(open: string, w: string, close: string, rest: string)
    requires open == "<em>" || open == "<i>"
    requires close == "</em>" || close == "</i>"
    requires '\n' !in w && NoEmClose(w)
    ensures EmISub(open + w + close + rest) == w + EmISub(rest)
  {
    var s := open + w + close + rest;
    Regroup(open, w, close, rest);
    EmOpening(open, w + close + rest);
    EmClosing(open + w, close, rest);
    EmSpanCloses(open, w, close, rest);
    EmISubStep(s, |open|, |open| + |w|, |close|);
    SpanParts(open, w, close, rest);
  }

  lemma Regroup(open: string, w: string, close: string, rest: string)
    ensures open + w + close + rest == open + (w + close + rest)
  {
  }

  /** Where the parts of `open + w + close + rest` lie. */
  lemma SpanParts(open: string, w: string, close: string, rest: string)
    ensures var s := open + w + close + rest;
      s[|open|..|open| + |w|] == w && s[|open| + |w| + |close|..] == rest
  {
  }

  /** A character that opens no tag is copied, and the substitution goes on after it. */
  lemma EmISubKeeps(ch: char, rest: string)
    requires ch != '<'
    ensures EmISub([ch] + rest) == [ch] + EmISub(rest)
  {
    NoEmAt([ch] + rest, 0);
    assert ([ch] + rest)[1..] == rest;
  }

  /** A `<p>` match as the extractor cleans it: emphasis unwrapped, tags removed, stripped. */
  function CleanParagraph(m: string): (c: string)
    ensures IsTrimmed(c) && NoTag(c)
  {
    var t := StripTags(EmISub(m));
    StripNoTag(t);
    Strip(t)
  }

  /** The text of a captured group: tags removed, stripped. */
  function GroupText(g: string): (c: string)
    ensures IsTrimmed(c) && NoTag(c)
  {
    var t := StripTags(g);
    StripNoTag(t);
    Strip(t)
  }

  /** `<em>May 1</em>`: the closing tag is found after the five letters of the date. */
  lemma EmphasisClose()
    ensures EmCloseFrom("<em>May 1</em>", 4) == Some(9)
  {
    var m := "<em>May 1</em>";
    assert EmCloseAt(m, 9) == 5 by { assert m[9..14] == "</em>"; }
    forall q | 4 <= q < 9
      ensures EmCloseAt(m, q) == 0
    {
      assert m[q] != '<';
      assert m[q..q + 5][0] == m[q] && m[q..q + 4][0] == m[q];
    }
    assert EmCloseFrom(m, 8) == Some(9);
    assert EmCloseFrom(m, 7) == Some(9);
    assert EmCloseFrom(m, 6) == Some(9);
    assert EmCloseFrom(m, 5) == Some(9);
  }

  /** The emphasis tags round a date are dropped. */
  lemma EmphasisDropped()
    ensures EmISub("<em>May 1</em>") == "May 1"
  {
    var m := "<em>May 1</em>";
    EmphasisTags();
    EmphasisClose();
    assert m[4..9] == "May 1";
    assert m[14..] == [];
  }

  lemma EmphasisTags()
    ensures EmOpenAt("<em>May 1</em>", 0) == 4 && EmCloseAt("<em>May 1</em>", 9) == 5
  {
    var m := "<em>May 1</em>";
    assert m[0..4] == "<em>";
    assert m[9..14] == "</em>";
  }

  lemma PlainDate()
    ensures StripTags("May 1") == "May 1" && Strip("May 1") == "May 1"
  {
    var d := "May 1";
    assert '<' !in d;
    assert NoTag(d);
    NoTagFixed(d);
    PlainDateTrimmed();
  }

  lemma PlainDateTrimmed()
    ensures Strip("May 1") == "May 1"
  {
    var d := "May 1";
    assert IsTrimmed(d) by { assert d[0] == 'M' && d[4] == '1'; }
    StripOfTrimmed(d);
  }

  /** An emphasised date cleans to its text. */
  lemma EmphasisUnwrapped()
    ensures CleanParagraph("<em>May 1</em>") == "May 1"
  {
    EmphasisDropped();
    PlainDate();
  }

  // ---------------------------------------------------------------- paragraph tests

  /** `re.search(r'^Home\s*>\s*News', c)`: the navigation trail. */
  predicate HomeNews(c: string) {
    StartsWith(c, "Home")
    && var a := 4 + SpaceRun(c, 4);
    a < |c| && c[a] == '>'
    && var b := a + 1 + SpaceRun(c, a + 1);
    OccursAt(c, "News", b)
  }

  /** `<h[12][^>]*>` at p: an `<h1` or `<h2` with a '>' somewhere after it. */
  predicate HeadingAt(m: string, p: nat) {
    p + 3 <= |m| && (m[p..p + 3] == "<h1" || m[p..p + 3] == "<h2") && '>' in m[p + 3..]
  }

  /** `re.search(r'<h[12][^>]*>', m)`. */
  predicate HasHeading(m: string) {
    exists p :: 0 <= p < |m| && HeadingAt(m, p)
  }

  /** A trail with spaces round the '>' is navigation. */
  lemma HomeNewsExample()
    ensures HomeNews("Home > News")
    ensures !HomeNews("Homepage News")
  {
    var c := "Home > News";
    assert StartsWith(c, "Home") by { assert c[..4] == "Home"; }
    assert SpaceRun(c, 7) == 0;
    assert SpaceRun(c, 6) == 1;
    assert SpaceRun(c, 4) == 1;
    assert c[7..11] == "News";
    var d := "Homepage News";
    assert SpaceRun(d, 4) == 0;
  }

  // ---------------------------------------------------------------- the What/Who/When table

  const TableFields: seq<string> := ["What:", "Who:", "When:", "Where:", "Contact:", "Other:"]

  /** A match that is the What/Who/When table. */
  predicate IsTableMatch(m: string) {
    Contains(m, "<table") && (Contains(m, "What:") || Contains(m, "Who:") || Contains(m, "When:"))
  }

  /** `<name[^>]*>` at p: the index just past its '>'. */
  function OpenTagAt(s: string, p: nat, name: string): (e: Option<nat>)
    ensures e.Some? ==> p < e.value <= |s|
  {
    if OccursAt(s, "<" + name, p) then
      match FindFrom(s, ">", p + |name| + 1)
      case Some(q) => Some(q + 1)
      case None => None
    else None
  }

  /** `<td[^>]*>\s*<b[^>]*>FIELD</b>\s*</td>\s*<td[^>]*>(.*?)</td>` anchored at p
      (`.` crosses newlines): the bounds of the group. Every part but the group is
      deterministic, and the lazy group ends at the first `</td>`. */
  function FieldCellAt(s: string, field: string, p: nat): (g: Option<(nat, nat)>)
    ensures g.Some? ==> p < g.value.0 <= g.value.1 <= |s|
  {
    match OpenTagAt(s, p, "td")
    case None => None
    case Some(a) =>
      match OpenTagAt(s, a + SpaceRun(s, a), "b")
      case None => None
      case Some(b) =>
        var f := b + |field|;
        if !OccursAt(s, field, b) || !OccursAt(s, "</b>", f) then None
        else
          var c := f + 4 + SpaceRun(s, f + 4);
          if !OccursAt(s, "</td>", c) then None
          else
            var d := c + 5 + SpaceRun(s, c + 5);
            match OpenTagAt(s, d, "td")
            case None => None
            case Some(g0) =>
              match FindFrom(s, "</td>", g0)
              case None => None
              case Some(e) => Some((g0, e))
  }

  /** j is the leftmost index from p on where the field regex matches. */
  predicate FirstFieldCell(s: string, field: string, p: nat, j: nat) {
    p <= j <= |s| && FieldCellAt(s, field, j).Some?
    && forall i :: p <= i < j ==> FieldCellAt(s, field, i).None?
  }

  /** `re.search` of the field regex from p: the leftmost index where it matches. */
  function FieldFrom(s: string, field: string, p: nat): (r: Option<nat>)
    requires p <= |s|
    ensures r.Some? ==> FirstFieldCell(s, field, p, r.value)
    ensures r.None? ==> forall j :: p <= j <= |s| ==> FieldCellAt(s, field, j).None?
    decreases |s| - p
  {
    if FieldCellAt(s, field, p).Some? then Some(p)
    else if p == |s| then None
    else
      var r := FieldFrom(s, field, p + 1);
      if r.Some? then
        FirstFieldCellStep(s, field, p, r.value);
        r
      else
        NoFieldCellStep(s, field, p);
        r
  }

  /** A miss at p moves the leftmost match from p + 1 back to p. */
  lemma FirstFieldCellStep(s: string, field: string, p: nat, j: nat)
    requires FieldCellAt(s, field, p).None? && FirstFieldCell(s, field, p + 1, j)
    ensures FirstFieldCell(s, field, p, j)
  {
    forall i | p <= i < j
      ensures FieldCellAt(s, field, i).None?
    {
      MissBefore(s, field, p, j, i);
    }
  }

  /** A miss at p and no match from p + 1 on: no match from p on. */
  lemma NoFieldCellStep(s: string, field: string, p: nat)
    requires p < |s| && FieldCellAt(s, field, p).None?
    requires forall j :: p + 1 <= j <= |s| ==> FieldCellAt(s, field, j).None?
    ensures forall j :: p <= j <= |s| ==> FieldCellAt(s, field, j).None?
  {
    forall j | p <= j <= |s|
      ensures FieldCellAt(s, field, j).None?
    {
      if j != p {
        assert p + 1 <= j <= |s|;
      }
    }
  }

  lemma MissBefore(s: string, field: string, p: nat, j: nat, i: nat)
    requires FieldCellAt(s, field, p).None? && FirstFieldCell(s, field, p + 1, j)
    requires p <= i < j
    ensures FieldCellAt(s, field, i).None?
  {
    if i != p {
      assert p + 1 <= i < j;
    }
  }

  /** The table line for one field: "FIELD text", or nothing when the field is
      missing or its cell is blank. */
  function TableItem(m: string, field: string): (item: seq<string>)
    ensures |item| <= 1
    ensures item != [] ==> StartsWith(item[0], field + " ") && |item[0]| > |field| + 1
    ensures (forall j :: 0 <= j <= |m| ==> FieldCellAt(m, field, j).None?) ==> item == []
    ensures forall j :: FirstFieldCell(m, field, 0, j) ==>
      var g := FieldCellAt(m, field, j).value;
      var c := GroupText(m[g.0..g.1]);
      item == if c == [] then [] else [field + " " + c]
  {
    match FieldFrom(m, field, 0)
    case None => []
    case Some(j) =>
      var g := FieldCellAt(m, field, j).value;
      var c := GroupText(m[g.0..g.1]);
      if c == [] then [] else [field + " " + c]
  }

  /** The table lines for the given fields, in field order. */
  function TableItems(m: string, fields: seq<string>): (items: seq<string>)
    ensures |items| <= |fields|
    ensures forall k :: 0 <= k < |items| ==> items[k] != []
  {
    if fields == [] then []
    else TableItems(m, fields[..|fields| - 1]) + TableItem(m, fields[|fields| - 1])
  }

  lemma TableItemsSnoc(m: string, fields: seq<string>, k: nat)
    requires k < |fields|
    ensures TableItems(m, fields[..k + 1]) == TableItems(m, fields[..k]) + TableItem(m, fields[k])
  {
    assert fields[..k + 1][..k] == fields[..k];
  }

  /** The field loop of the table branch. */
  method CollectTableItems(m: string) returns (items: seq<string>)
    ensures items == TableItems(m, TableFields)
  {
    items := [];
    var k := 0;
    while k < |TableFields|
      invariant 0 <= k <= |TableFields|
      invariant items == TableItems(m, TableFields[..k])
    {
      var item := CollectField(m, TableFields[k]);
      TableItemsSnoc(m, TableFields, k);
      items := items + item;
      k := k + 1;
    }
    assert TableFields[..k] == TableFields;
  }

  /** One round of the field loop: the line for one field, if any. */
  method CollectField(m: string, field: string) returns (item: seq<string>)
    ensures item == TableItem(m, field)
  {
    item := [];
    var j := FieldFrom(m, field, 0);
    if j.Some? {
      var g := FieldCellAt(m, field, j.value).value;
      var content := GroupText(m[g.0..g.1]);
      if content != [] {
        item := [field + " " + content];
      }
    }
  }

  // ---------------------------------------------------------------- the dash cut

  /** Index of the first dash of a line. */
  function FirstDash(line: string): (k: Option<nat>)
    ensures k.Some? ==> k.value < |line| && IsDash(line[k.value])
    ensures k.Some? ==> forall j :: 0 <= j < k.value ==> !IsDash(line[j])
    ensures k.None? ==> forall j :: 0 <= j < |line| ==> !IsDash(line[j])
  {
    if line == [] then None
    else if IsDash(line[0]) then Some(0)
    else match FirstDash(line[1..])
      case None => None
      case Some(k) => Some(k + 1)
  }

  /** The first dash is the one with no dash before it. */
  lemma FirstDashAt(line: string, k: nat)
    requires k < |line| && IsDash(line[k])
    requires forall j :: 0 <= j < k ==> !IsDash(line[j])
    ensures FirstDash(line).Some? && FirstDash(line).value == k
  {
  }

  /** `re.sub(r'^.*?[–—-]', '', line)` on one line: the text up to and including
      its first dash goes; a line without a dash stays. */
  function DashCutLine(line: string): (r: string)
    ensures |r| <= |line| && r == line[|line| - |r|..]
    ensures r == line <==> forall j :: 0 <= j < |line| ==> !IsDash(line[j])
    ensures r != line ==> IsDash(line[|line| - |r| - 1])
    ensures r != line ==> forall j :: 0 <= j < |line| - |r| - 1 ==> !IsDash(line[j])
  {
    match FirstDash(line)
    case None => line
    case Some(k) => line[k + 1..]
  }

  function DashCutLines(lines: seq<string>): (r: seq<string>)
    ensures |r| == |lines|
    ensures forall k :: 0 <= k < |r| ==> r[k] == DashCutLine(lines[k])
  {
    seq(|lines|, k requires 0 <= k < |lines| => DashCutLine(lines[k]))
  }

  /** `re.sub(r'^.*?[–—-]', '', s, flags=re.MULTILINE)`: `^` matches at every line
      start and `.` stops at '\n', so each line loses its text up to its first dash. */
  function DashCut(s: string): string {
    Join("\n", DashCutLines(Split(s, '\n')))
  }

  /** The cut keeps the lines: line k of the result is line k of the text, cut. */
  lemma DashCutKeepsLines(s: string)
    ensures Split(DashCut(s), '\n') == DashCutLines(Split(s, '\n'))
  {
    var lines := Split(s, '\n');
    var cut := DashCutLines(lines);
    forall k | 0 <= k < |cut|
      ensures '\n' !in cut[k]
    {
      assert cut[k] == lines[k][|lines[k]| - |cut[k]|..];
    }
    SplitJoin(cut, '\n');
  }

  /** A hyphenated word loses its first half: "A well-known firm" becomes "known firm". */
  lemma HyphenCut()
    ensures DashCutLine("A well-known firm") == "known firm"
  {
    var line := "A well-known firm";
    assert IsDash(line[6]);
    assert forall j :: 0 <= j < 6 ==> !IsDash(line[j]);
    FirstDashAt(line, 6);
    assert line[7..] == "known firm";
  }

  // ---------------------------------------------------------------- marker lines

  predicate IsMarkChar(c: char) {
    c == '#' || c == '*'
  }

  /** `^` with `re.MULTILINE`: p is the start of the text or follows a '\n'. */
  predicate LineStart(s: string, p: nat) {
    p == 0 || (0 < p <= |s| && s[p - 1] == '\n')
  }

  /** `.*` without DOTALL: the characters before the next '\n'. */
  function RestOfLine(s: string, i: nat): (n: nat)
    requires i <= |s|
    ensures i + n <= |s|
    ensures forall j :: i <= j < i + n ==> s[j] != '\n'
    ensures i + n < |s| ==> s[i + n] == '\n'
    decreases |s| - i
  {
    if i == |s| || s[i] == '\n' then 0 else 1 + RestOfLine(s, i + 1)
  }

  /** The whitespace from p on (newlines included) is not followed by '#' or '*'. */
  predicate AheadOK(s: string, p: nat)
    requires p <= |s|
  {
    var w := p + SpaceRun(s, p);
    w == |s| || !IsMarkChar(s[w])
  }

  /** `^[\s]*[#\*]+.*$` at p: the end of the marker line. `[\s]*` may run over
      blank lines, and the match stops before the '\n' that ends the marker line. */
  function MarkerLineAt(s: string, p: nat): (e: Option<nat>)
    requires p <= |s|
    ensures e.Some? ==> LineStart(s, p) && p < e.value <= |s| && s[e.value - 1] != '\n'
    ensures e.Some? && e.value < |s| ==> s[e.value] == '\n'
    ensures e.None? ==> !LineStart(s, p) || AheadOK(s, p)
    ensures e.Some? ==> !AheadOK(s, p) && p + SpaceRun(s, p) <= e.value && '\n' !in s[p + SpaceRun(s, p)..e.value]
  {
    if !LineStart(s, p) || AheadOK(s, p) then None
    else
      var w := p + SpaceRun(s, p);
      var n := RestOfLine(s, w);
      NewlineFreeSlice(s, w, w + n);
      Some(w + n)
  }

  /** Every line after the first is not a marker line. */
  predicate AfterNewlinesOK(t: string) {
    forall i :: 0 <= i < |t| && t[i] == '\n' ==> AheadOK(t, i + 1)
  }

  lemma SpaceRunShift(c: char, t: string, i: nat)
    requires i <= |t|
    ensures SpaceRun([c] + t, i + 1) == SpaceRun(t, i)
    decreases |t| - i
  {
    var r := [c] + t;
    if i < |t| {
      assert r[i + 1] == t[i];
      SpaceRunShift(c, t, i + 1);
    }
  }

  lemma AheadOKShift(c: char, t: string, i: nat)
    requires i <= |t|
    ensures AheadOK([c] + t, i + 1) == AheadOK(t, i)
  {
    SpaceRunShift(c, t, i);
    var w := i + SpaceRun(t, i);
    if w < |t| {
      assert ([c] + t)[w + 1] == t[w];
    }
  }

  lemma AheadOKCons(c: char, t: string)
    requires IsSpace(c) || !IsMarkChar(c)
    requires IsSpace(c) ==> AheadOK(t, 0)
    ensures AheadOK([c] + t, 0)
  {
    if IsSpace(c) {
      AheadOKShift(c, t, 0);
    }
  }

  lemma MarkerNewlineCons(c: char, t: string)
    requires AfterNewlinesOK(t)
    requires c == '\n' ==> AheadOK(t, 0)
    ensures AfterNewlinesOK([c] + t)
  {
    var r := [c] + t;
    forall i | 0 <= i < |r| && r[i] == '\n'
      ensures AheadOK(r, i + 1)
    {
      MarkerNewlineAt(c, t, i);
    }
  }

  lemma MarkerNewlineAt(c: char, t: string, i: nat)
    requires AfterNewlinesOK(t)
    requires c == '\n' ==> AheadOK(t, 0)
    requires i <= |t| && ([c] + t)[i] == '\n'
    ensures AheadOK([c] + t, i + 1)
  {
    if i == 0 {
      AheadOKShift(c, t, 0);
    } else {
      assert t[i - 1] == '\n';
      AheadOKShift(c, t, i);
    }
  }

  /** The scan of `re.sub(r'(?m)^[\s]*[#\*]+.*$', '', s)` over the text t that is
      left, where atStart says whether t begins a line: a marker line is dropped
      up to the '\n' that ends it, any other character is copied. */
  function RemoveMarkerLinesFrom(t: string, atStart: bool): string
    decreases |t|
  {
    if t == [] then []
    else if atStart && MarkerLineAt(t, 0).Some? then
      var e := MarkerLineAt(t, 0).value;
      if e == |t| then [] else RemoveMarkerLinesFrom(t[e..], false)
    else [t[0]] + RemoveMarkerLinesFrom(t[1..], t[0] == '\n')
  }

  /** Each line of what the scan leaves, the first one included when t starts a
      line, is not a marker line. */
  lemma {:induction false} RemoveMarkerLinesFromShape(t: string, atStart: bool)
    ensures (atStart || AheadOK(t, 0)) ==> AheadOK(RemoveMarkerLinesFrom(t, atStart), 0)
    ensures AfterNewlinesOK(RemoveMarkerLinesFrom(t, atStart))
    decreases |t|, 1
  {
    if t != [] {
      if atStart && MarkerLineAt(t, 0).Some? {
        var e := MarkerLineAt(t, 0).value;
        if e < |t| {
          MarkerLineShape(t, e);
        }
      } else {
        PlainShape(t, atStart);
      }
    }
  }

  /** The case of RemoveMarkerLinesFromShape where a marker line starts t. */
  lemma {:induction false} MarkerLineShape(t: string, e: nat)
    requires MarkerLineAt(t, 0).Some? && MarkerLineAt(t, 0).value == e && e < |t|
    ensures AheadOK(RemoveMarkerLinesFrom(t, true), 0)
    ensures AfterNewlinesOK(RemoveMarkerLinesFrom(t, true))
    decreases |t|, 0
  {
    ScanAfterMarker(t, e);
    RemoveMarkerLinesFromShape(t[e + 1..], true);
    MarkerStep(RemoveMarkerLinesFrom(t[e + 1..], true));
  }

  /** The case of RemoveMarkerLinesFromShape where the first character is copied. */
  lemma {:induction false} PlainShape(t: string, atStart: bool)
    requires t != [] && !(atStart && MarkerLineAt(t, 0).Some?)
    ensures (atStart || AheadOK(t, 0)) ==> AheadOK(RemoveMarkerLinesFrom(t, atStart), 0)
    ensures AfterNewlinesOK(RemoveMarkerLinesFrom(t, atStart))
    decreases |t|, 0
  {
    RemoveMarkerLinesFromShape(t[1..], t[0] == '\n');
    assert RemoveMarkerLinesFrom(t, atStart) == [t[0]] + RemoveMarkerLinesFrom(t[1..], t[0] == '\n');
    PlainStep(t, atStart, RemoveMarkerLinesFrom(t[1..], t[0] == '\n'));
  }

  /** The '\n' that ends a marker line, followed by what the scan leaves of the rest. */
  lemma MarkerStep(r: string)
    requires AheadOK(r, 0)
    requires AfterNewlinesOK(r)
    ensures AheadOK(['\n'] + r, 0)
    ensures AfterNewlinesOK(['\n'] + r)
  {
    AheadOKCons('\n', r);
    MarkerNewlineCons('\n', r);
  }

  /** A character that does not start a marker line, followed by what the scan leaves of the rest. */
  lemma PlainStep(t: string, atStart: bool, r: string)
    requires t != [] && !(atStart && MarkerLineAt(t, 0).Some?)
    requires (t[0] == '\n' || AheadOK(t[1..], 0)) ==> AheadOK(r, 0)
    requires AfterNewlinesOK(r)
    ensures (atStart || AheadOK(t, 0)) ==> AheadOK([t[0]] + r, 0)
    ensures AfterNewlinesOK([t[0]] + r)
  {
    assert t == [t[0]] + t[1..];
    AheadOKShift(t[0], t[1..], 0);
    MarkerNewlineCons(t[0], r);
    if atStart || AheadOK(t, 0) {
      AheadOKCons(t[0], r);
    }
  }

  /** After a marker line that ends before the end of the text, the scan keeps its '\n'. */
  lemma ScanAfterMarker(t: string, e: nat)
    requires MarkerLineAt(t, 0).Some? && MarkerLineAt(t, 0).value == e && e < |t|
    ensures RemoveMarkerLinesFrom(t, true) == ['\n'] + RemoveMarkerLinesFrom(t[e + 1..], true)
  {
    var u := t[e..];
    assert u[0] == '\n' && u[1..] == t[e + 1..];
  }

  /** No line of the text is a marker line: after the blanks that open any line
      there is no '#' or '*'. */
  predicate NoMarkerLine(r: string) {
    forall q :: 0 <= q <= |r| && LineStart(r, q) ==> AheadOK(r, q)
  }

  /** `re.sub(r'(?m)^[\s]*[#\*]+.*$', '', s)`: what is left has no marker line. */
  function RemoveMarkerLines(s: string): (r: string)
    ensures NoMarkerLine(r)
  {
    var r := RemoveMarkerLinesFrom(s, true);
    RemoveMarkerLinesFromShape(s, true);
    forall q | 0 <= q <= |r| && LineStart(r, q)
      ensures AheadOK(r, q)
    {
      if q > 0 {
        assert r[q - 1] == '\n';
      }
    }
    r
  }

  /** The blank run from i is exactly the k blanks that stand there. */
  lemma {:induction false} SpaceRunExact(s: string, i: nat, k: nat)
    requires i + k <= |s| && forall j :: i <= j < i + k ==> IsSpace(s[j])
    requires i + k < |s| ==> !IsSpace(s[i + k])
    ensures SpaceRun(s, i) == k
    decreases k
  {
    if k > 0 {
      SpaceRunExact(s, i + 1, k - 1);
    }
  }

  /** The rest of the line from i is exactly the k characters before the next '\n'. */
  lemma {:induction false} RestOfLineExact(s: string, i: nat, k: nat)
    requires i + k <= |s| && forall j :: i <= j < i + k ==> s[j] != '\n'
    requires i + k < |s| ==> s[i + k] == '\n'
    ensures RestOfLine(s, i) == k
    decreases k
  {
    if k > 0 {
      RestOfLineExact(s, i + 1, k - 1);
    }
  }

  /** A slice with no '\n' at any index holds no '\n'. */
  lemma NewlineFreeSlice(s: string, a: nat, b: nat)
    requires a <= b <= |s| && forall j :: a <= j < b ==> s[j] != '\n'
    ensures '\n' !in s[a..b]
  {
    forall k | 0 <= k < b - a
      ensures s[a..b][k] != '\n'
    {
      assert s[a..b][k] == s[a + k];
    }
  }

  /** The blank run at i in the text from k on is the blank run at k + i. */
  lemma SpaceRunDrop(s: string, k: nat, i: nat)
    requires k + i <= |s|
    ensures SpaceRun(s, k + i) == SpaceRun(s[k..], i)
  {
    var t := s[k..];
    var n := SpaceRun(t, i);
    forall j | k + i <= j < k + i + n
      ensures IsSpace(s[j])
    {
      assert s[j] == t[j - k];
    }
    if i + n < |t| {
      assert s[k + i + n] == t[i + n];
    }
    SpaceRunExact(s, k + i, n);
  }

  /** Whether a line may be kept is decided alike in the text from k on. */
  lemma AheadOKDrop(s: string, k: nat, i: nat)
    requires k + i <= |s|
    ensures AheadOK(s, k + i) == AheadOK(s[k..], i)
  {
    SpaceRunDrop(s, k, i);
    var w := i + SpaceRun(s[k..], i);
    if w < |s| - k {
      assert s[k + w] == s[k..][w];
    }
  }

  /** From p on, a text without marker lines is copied unchanged. */
  lemma {:induction false} NoMarkerLineCopied(s: string, p: nat)
    requires p <= |s| && NoMarkerLine(s)
    ensures RemoveMarkerLinesFrom(s[p..], LineStart(s, p)) == s[p..]
    decreases |s| - p
  {
    if p < |s| {
      var t := s[p..];
      if LineStart(s, p) {
        AheadOKDrop(s, p, 0);
        assert MarkerLineAt(t, 0).None?;
      }
      assert t[0] == s[p] && t[1..] == s[p + 1..];
      assert LineStart(s, p + 1) == (s[p] == '\n');
      NoMarkerLineCopied(s, p + 1);
      assert t == [s[p]] + s[p + 1..];
    }
  }

  /** Removing marker lines twice removes nothing more. */
  lemma RemoveMarkerLinesIdempotent(s: string)
    ensures RemoveMarkerLines(RemoveMarkerLines(s)) == RemoveMarkerLines(s)
  {
    var r := RemoveMarkerLines(s);
    NoMarkerLineCopied(r, 0);
    assert r[0..] == r;
  }

  /** A character that does not start a marker line is copied. */
  lemma ScanCopies(t: string, atStart: bool)
    requires t != [] && !(atStart && MarkerLineAt(t, 0).Some?)
    ensures RemoveMarkerLinesFrom(t, atStart) == [t[0]] + RemoveMarkerLinesFrom(t[1..], t[0] == '\n')
  {
  }

  /** Inside a line, text without a newline is copied, and the scan goes on
      after the line's '\n' at the start of the next line. */
  lemma {:induction false} KeptLineTail(w: string, rest: string)
    requires '\n' !in w
    ensures RemoveMarkerLinesFrom(w + ("\n" + rest), false) == w + ("\n" + RemoveMarkerLinesFrom(rest, true))
    decreases |w|
  {
    var x := w + ("\n" + rest);
    ScanCopies(x, false);
    if w == [] {
      assert x == "\n" + rest && x[1..] == rest;
    } else {
      assert x[0] == w[0] && x[1..] == w[1..] + ("\n" + rest);
      KeptLineTail(w[1..], rest);
      Cons3(w, "\n", RemoveMarkerLinesFrom(rest, true));
    }
  }

  lemma Cons3(w: string, a: string, b: string)
    requires w != []
    ensures [w[0]] + (w[1..] + (a + b)) == w + a + b
  {
  }

  /** The first character of a line whose first non-blank is not '#' or '*' is copied. */
  lemma KeptLineHead(u: string, rest: string)
    requires '\n' !in u && SpaceRun(u, 0) < |u| && !IsMarkChar(u[SpaceRun(u, 0)])
    ensures RemoveMarkerLinesFrom(u + "\n" + rest, true)
         == [u[0]] + RemoveMarkerLinesFrom(u[1..] + ("\n" + rest), false)
  {
    var s := u + "\n" + rest;
    KeptLineAhead(u, rest);
    ScanKeepsLine(s);
    LineTail(u, rest);
  }

  lemma LineTail(u: string, rest: string)
    requires u != []
    ensures (u + "\n" + rest)[0] == u[0] && (u + "\n" + rest)[1..] == u[1..] + ("\n" + rest)
  {
  }

  lemma KeptLineAhead(u: string, rest: string)
    requires '\n' !in u && SpaceRun(u, 0) < |u| && !IsMarkChar(u[SpaceRun(u, 0)])
    ensures AheadOK(u + "\n" + rest, 0)
  {
    var s := u + "\n" + rest;
    var k := SpaceRun(u, 0);
    forall j | 0 <= j < k
      ensures IsSpace(s[j])
    {
      assert s[j] == u[j];
    }
    assert s[k] == u[k];
    SpaceRunExact(s, 0, k);
  }

  /** A line that is not a marker line keeps its first character. */
  lemma ScanKeepsLine(t: string)
    requires t != [] && AheadOK(t, 0)
    ensures RemoveMarkerLinesFrom(t, true) == [t[0]] + RemoveMarkerLinesFrom(t[1..], t[0] == '\n')
  {
    ScanCopies(t, true);
  }

  /** A line whose first non-blank is not '#' or '*' is kept with its '\n'. */
  lemma KeptLine(u: string, rest: string)
    requires '\n' !in u && SpaceRun(u, 0) < |u| && !IsMarkChar(u[SpaceRun(u, 0)])
    ensures RemoveMarkerLines(u + "\n" + rest) == u + "\n" + RemoveMarkerLines(rest)
  {
    var r := RemoveMarkerLinesFrom(rest, true);
    assert RemoveMarkerLines(rest) == r;
    KeptLineHead(u, rest);
    KeptLineTail(u[1..], rest);
    Cons3(u, "\n", r);
  }

  /** A line whose first non-blank is '#' or '*' is dropped; its '\n' stays. */
  lemma DropsMarkerLine(m: string, rest: string)
    requires '\n' !in m && SpaceRun(m, 0) < |m| && IsMarkChar(m[SpaceRun(m, 0)])
    ensures RemoveMarkerLines(m + "\n" + rest) == "\n" + RemoveMarkerLines(rest)
  {
    var s := m + "\n" + rest;
    var k := SpaceRun(m, 0);
    forall j | 0 <= j < k
      ensures IsSpace(s[j])
    {
      assert s[j] == m[j];
    }
    assert s[k] == m[k];
    SpaceRunExact(s, 0, k);
    forall j | k <= j < |m|
      ensures s[j] != '\n'
    {
      assert s[j] == m[j];
    }
    assert s[|m|] == '\n';
    RestOfLineExact(s, k, |m| - k);
    assert MarkerLineAt(s, 0).Some? && MarkerLineAt(s, 0).value == |m|;
    ScanAfterMarker(s, |m|);
    assert s[|m| + 1..] == rest;
  }

  // ---------------------------------------------------------------- blank lines

  /** Three newlines in a row nowhere. */
  predicate NoNewlineTriple(r: string) {
    forall i :: 0 <= i && i + 2 < |r| ==> !(r[i] == '\n' && r[i + 1] == '\n' && r[i + 2] == '\n')
  }

  /** Number of newlines in a row from i. */
  function NewlineRun(s: string, i: nat): (n: nat)
    requires i <= |s|
    ensures i + n <= |s|
    ensures forall j :: i <= j < i + n ==> s[j] == '\n'
    ensures i + n < |s| ==> s[i + n] != '\n'
    decreases |s| - i
  {
    if i < |s| && s[i] == '\n' then 1 + NewlineRun(s, i + 1) else 0
  }

  lemma NoTripleCons(c: char, t: string)
    requires c != '\n' && NoNewlineTriple(t)
    ensures NoNewlineTriple([c] + t)
  {
    var r := [c] + t;
    forall i | 0 < i && i + 2 < |r|
      ensures !(r[i] == '\n' && r[i + 1] == '\n' && r[i + 2] == '\n')
    {
      assert r[i] == t[i - 1] && r[i + 1] == t[i] && r[i + 2] == t[i + 1];
    }
  }

  lemma NoTripleShortPrefix(a: string, t: string)
    requires |a| <= 2 && NoNewlineTriple(t) && (t != [] ==> t[0] != '\n')
    ensures NoNewlineTriple(a + t)
  {
    var r := a + t;
    forall i | 0 <= i && i + 2 < |r|
      ensures !(r[i] == '\n' && r[i + 1] == '\n' && r[i + 2] == '\n')
    {
      if i >= |a| {
        assert r[i] == t[i - |a|] && r[i + 1] == t[i - |a| + 1] && r[i + 2] == t[i - |a| + 2];
      } else if i + 1 == |a| {
        assert r[i + 1] == t[0];
      } else {
        assert r[i + 2] == t[0];
      }
    }
  }

  /** `re.sub(r'\n{3,}', '\n\n', s)`: every run of three or more newlines becomes two. */
  function CollapseNewlines(s: string): (r: string)
    ensures NoNewlineTriple(r)
    ensures r == [] <==> s == []
    ensures r != [] ==> (r[0] == '\n' <==> s[0] == '\n')
    decreases |s|
  {
    if s == [] then []
    else if s[0] != '\n' then
      var t := CollapseNewlines(s[1..]);
      NoTripleCons(s[0], t);
      [s[0]] + t
    else
      var n := NewlineRun(s, 0);
      var run := if n >= 3 then "\n\n" else s[..n];
      var t := CollapseNewlines(s[n..]);
      NoTripleShortPrefix(run, t);
      run + t
  }

  /** Text without a triple newline is left as it is. */
  lemma {:induction false} CollapseFixed(s: string)
    requires NoNewlineTriple(s)
    ensures CollapseNewlines(s) == s
    decreases |s|
  {
    if s != [] {
      if s[0] != '\n' {
        NoNewlineTripleSlice(s, 1, |s|);
        assert s[1..|s|] == s[1..];
        CollapseFixed(s[1..]);
      } else {
        var n := NewlineRun(s, 0);
        assert |s| >= 3 ==> !(s[0] == '\n' && s[1] == '\n' && s[2] == '\n');
        NoNewlineTripleSlice(s, n, |s|);
        assert s[n..|s|] == s[n..];
        CollapseFixed(s[n..]);
        assert s == s[..n] + s[n..];
      }
    }
  }

  /** Text without a newline is copied, and the rest is collapsed in turn. */
  lemma {:induction false} CollapseKeepsText(w: string, rest: string)
    requires '\n' !in w
    ensures CollapseNewlines(w + rest) == w + CollapseNewlines(rest)
    decreases |w|
  {
    if w == [] {
      assert w + rest == rest;
    } else {
      var s := w + rest;
      assert s[0] == w[0] && s[1..] == w[1..] + rest;
      assert CollapseNewlines(s) == [w[0]] + CollapseNewlines(w[1..] + rest);
      CollapseKeepsText(w[1..], rest);
      assert w == [w[0]] + w[1..];
    }
  }

  /** The newline run from i is exactly the k newlines that stand there. */
  lemma {:induction false} NewlineRunExact(s: string, i: nat, k: nat)
    requires i + k <= |s| && forall j :: i <= j < i + k ==> s[j] == '\n'
    requires i + k < |s| ==> s[i + k] != '\n'
    ensures NewlineRun(s, i) == k
    decreases k
  {
    if k > 0 {
      NewlineRunExact(s, i + 1, k - 1);
    }
  }

  /** A run of newlines that ends the line block becomes two newlines when it
      has three or more, and stays as it is otherwise. */
  lemma CollapseRun(nl: string, rest: string)
    requires nl != [] && forall j :: 0 <= j < |nl| ==> nl[j] == '\n'
    requires rest == [] || rest[0] != '\n'
    ensures CollapseNewlines(nl + rest) == (if |nl| >= 3 then "\n\n" else nl) + CollapseNewlines(rest)
  {
    var s := nl + rest;
    NewlineRunExact(s, 0, |nl|);
    assert s[..|nl|] == nl && s[|nl|..] == rest;
  }

  /** A slice of text without a triple newline has none. */
  lemma NoNewlineTripleSlice(s: string, a: nat, b: nat)
    requires a <= b <= |s| && NoNewlineTriple(s)
    ensures NoNewlineTriple(s[a..b])
  {
    var t := s[a..b];
    forall i | 0 <= i && i + 2 < |t|
      ensures !(t[i] == '\n' && t[i + 1] == '\n' && t[i + 2] == '\n')
    {
      assert t[i] == s[a + i] && t[i + 1] == s[a + i + 1] && t[i + 2] == s[a + i + 2];
    }
  }

  // ---------------------------------------------------------------- end marks

  /** The end markers, in the order the extractor tries them. */
  const EndMarks: seq<string> := ["###", "# # #", "* * *", "#  #  #", "*  *  *", "***"]

  /** Cutting t before the first occurrence of mark leaves no occurrence of it. */
  lemma CutBeforeFirst(t: string, mark: string, i: nat)
    requires mark != [] && IndexOf(t, mark) == Some(i)
    ensures !Contains(t[..i], mark)
  {
    forall j: nat | j + |mark| <= |t[..i]|
      ensures !OccursAt(t[..i], mark, j)
    {
      assert t[..i][j..j + |mark|] == t[j..j + |mark|];
      assert !OccursAt(t, mark, j);
    }
  }

  /** The truncation loop over the marks: each mark found cuts the text before
      its first occurrence, in the order of the list. What is left is a prefix of
      the text holding none of the marks. */
  function TruncatedBy(md: string, marks: seq<string>): (r: string)
    requires forall k :: 0 <= k < |marks| ==> marks[k] != []
    ensures r <= md
    ensures forall k :: 0 <= k < |marks| ==> !Contains(r, marks[k])
  {
    if marks == [] then md
    else
      var t := TruncatedBy(md, marks[..|marks| - 1]);
      var mark := marks[|marks| - 1];
      assert forall k :: 0 <= k < |marks| - 1 ==> marks[k] == marks[..|marks| - 1][k];
      match IndexOf(t, mark)
      case None => t
      case Some(i) =>
        CutBeforeFirst(t, mark, i);
        forall k | 0 <= k < |marks| - 1
          ensures !Contains(t[..i], marks[k])
        {
          NotContainsPrefix(t, marks[k], i);
        }
        t[..i]
  }

  /** Text holding none of the marks is left as it is. */
  lemma {:induction false} TruncatedByClean(md: string, marks: seq<string>)
    requires forall k :: 0 <= k < |marks| ==> marks[k] != [] && !Contains(md, marks[k])
    ensures TruncatedBy(md, marks) == md
  {
    if marks != [] {
      var init := marks[..|marks| - 1];
      assert forall k :: 0 <= k < |init| ==> init[k] == marks[k];
      TruncatedByClean(md, init);
    }
  }

  /** The `end_marks` loop of the extractor. */
  method TruncateAtEndMarks(md: string) returns (r: string)
    ensures r == TruncatedBy(md, EndMarks)
  {
    r := md;
    for k := 0 to |EndMarks|
      invariant r == TruncatedBy(md, EndMarks[..k])
    {
      var mark := EndMarks[k];
      if Contains(r, mark) {
        r := r[..IndexOf(r, mark).value];
      }
      assert EndMarks[..k + 1][..k] == EndMarks[..k];
    }
    assert EndMarks[..|EndMarks|] == EndMarks;
  }

  /** One round of the truncation loop. */
  lemma TruncatedBySnoc(md: string, marks: seq<string>, k: nat)
    requires k < |marks| && forall j :: 0 <= j < |marks| ==> marks[j] != []
    ensures TruncatedBy(md, marks[..k + 1]) ==
      var t := TruncatedBy(md, marks[..k]);
      match IndexOf(t, marks[k]) case None => t case Some(i) => t[..i]
  {
    assert marks[..k + 1][..k] == marks[..k];
  }

  /** Marks from k on that do not occur in the text cut by the first k leave it as it is. */
  lemma {:induction false} TruncatedByRest(md: string, marks: seq<string>, k: nat, r: string)
    requires k <= |marks| && forall j :: 0 <= j < |marks| ==> marks[j] != []
    requires TruncatedBy(md, marks[..k]) == r
    requires forall j :: k <= j < |marks| ==> IndexOf(r, marks[j]).None?
    ensures TruncatedBy(md, marks) == r
    decreases |marks| - k
  {
    if k == |marks| {
      assert marks[..k] == marks;
    } else {
      TruncatedBySnoc(md, marks, k);
      TruncatedByRest(md, marks, k + 1, r);
    }
  }

  /** A text lacking one of the characters of t does not contain t. */
  lemma MissingChar(s: string, t: string, c: char)
    requires c in t && c !in s
    ensures !Contains(s, t)
  {
  }

  lemma SampleHashes()
    ensures IndexOf("A # # ###", "###") == Some(6)
    ensures OccursAt("A # # ###", "# # #", 2)
  {
    var s := "A # # ###";
    assert s[6..9] == "###";
    assert s[2..7] == "# # #";
    forall j | 0 <= j < 6
      ensures !OccursAt(s, "###", j)
    {
      assert s[j..j + 3][0] == s[j] && s[j..j + 3][1] == s[j + 1];
    }
    assert FindFrom(s, "###", 6) == Some(6);
    assert FindFrom(s, "###", 5) == Some(6);
    assert FindFrom(s, "###", 4) == Some(6);
    assert FindFrom(s, "###", 3) == Some(6);
    assert FindFrom(s, "###", 2) == Some(6);
    assert FindFrom(s, "###", 1) == Some(6);
  }

  lemma SampleRest()
    ensures forall k :: 1 <= k < |EndMarks| ==> IndexOf("A # # ", EndMarks[k]).None?
  {
    var s := "A # # ";
    MissingChar(s, "* * *", '*');
    MissingChar(s, "*  *  *", '*');
    MissingChar(s, "***", '*');
    assert !OccursAt(s, "#  #  #", 0);
    assert !OccursAt(s, "# # #", 0) by { assert s[0..5][0] == 'A'; }
    assert !OccursAt(s, "# # #", 1) by { assert s[1..6][0] == ' '; }
    assert FindFrom(s, "# # #", 2) == None;
    assert FindFrom(s, "# # #", 1) == None;
    assert FindFrom(s, "#  #  #", 0) == None;
  }

  /** The marks are tried in list order, not by position: in "A # # ###" the
      "###" at index 6 is cut first, which breaks up the "# # #" starting at
      index 2, so the text keeps "A # # " and not just "A ". */
  lemma SequentialNotEarliest()
    ensures OccursAt("A # # ###", "# # #", 2)
    ensures TruncatedBy("A # # ###", EndMarks) == "A # # "
  {
    SampleHashes();
    SampleAllRounds();
  }

  lemma SampleAllRounds()
    ensures TruncatedBy("A # # ###", EndMarks) == "A # # "
  {
    SampleFirstRound();
    SampleRest();
    TruncatedByRest("A # # ###", EndMarks, 1, "A # # ");
  }

  lemma SampleFirstRound()
    ensures TruncatedBy("A # # ###", EndMarks[..1]) == "A # # "
  {
    var md := "A # # ###";
    SampleHashes();
    assert EndMarks[..0] == [];
    TruncatedBySnoc(md, EndMarks, 0);
    assert md[..6] == "A # # ";
  }

}
