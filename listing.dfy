/**
 * The yearly press-release listing that both collectors read: the rows of every
 * table on `/news/press/pressarchive/<year>press.shtml`, each row a link cell,
 * a date cell and a headline cell.
 *
 * The two collectors differ in two details only, kept apart by `Era`: the HTML
 * collector skips a link with an empty href, and it falls back to the link text
 * when the headline cell is empty. Everything else, including the set of URLs
 * already seen, which the collector object keeps across calls, is shared.
 */
module Listing {
  import opened Options
  import opened Strings

  /** The site every relative link is resolved against. */
  const BaseUrl: string := "https://www.sec.gov"

  /** The first `<a>` of the link cell: its href ("" when absent) and its stripped text. */
  datatype Anchor = Anchor(href: string, text: string)

  /** A `<td>`: its stripped text, and the first `<a>` inside it if there is one. */
  datatype Cell = Cell(text: string, anchor: Option<Anchor>)

  /** A `<tr>` with its `<td>` cells. */
  datatype Row = Row(cells: seq<Cell>)

  /** One entry of the result: `{"Date": ..., "Headlines": ..., "URL": ...}`. */
  datatype Release = Release(date: string, headline: string, url: string)

  /** The date parser the listing applies to the second cell of a row; both
      collectors pass `DateUtils.ParseDate`. */
  type DateParser = string -> Option<string>

  /** Which collector reads the listing: the 1977-2001 text archive or the HTML one. */
  datatype Era = TxtEra | HtmlEra

  /** The state a listing pass carries: the URLs seen so far and the releases collected. */
  datatype Listed = Listed(seen: set<string>, releases: seq<Release>)

  /** A root-relative href is prefixed with the site; any other href is kept as is. */
  function FullUrl(href: string): string {
    if StartsWith(href, "/") then BaseUrl + href else href
  }

  /** The URL a row claims: the row has at least three cells and a link in the
      first, and (HTML collector only) the link's href is not empty. A row that
      claims no URL is skipped without touching the set of seen URLs. */
  function RowUrl(era: Era, row: Row): Option<string> {
    if |row.cells| < 3 || row.cells[0].anchor.None? then None
    else
      var href := row.cells[0].anchor.value.href;
      if era == HtmlEra && href == "" then None else Some(FullUrl(href))
  }

  /** The headline of a claiming row: the third cell, or in the HTML collector
      the link text when the third cell is empty. */
  function Headline(era: Era, row: Row): string
    requires |row.cells| >= 3 && row.cells[0].anchor.Some?
  {
    var details := row.cells[2].text;
    if era == HtmlEra && details == [] then row.cells[0].anchor.value.text else details
  }

  /** The release a claiming row yields: only when its date parses and its headline is not empty. */
  function RowRelease(era: Era, parse: DateParser, row: Row): Option<Release>
    requires RowUrl(era, row).Some?
  {
    var date := parse(row.cells[1].text);
    var headline := Headline(era, row);
    if date.Some? && date.value != [] && headline != [] then
      Some(Release(date.value, headline, RowUrl(era, row).value))
    else None
  }

  /** One row of the loop: a claimed URL not seen before is recorded first,
      whether or not the row then yields a release. */
  function Visit(era: Era, parse: DateParser, st: Listed, row: Row): Listed {
    match RowUrl(era, row)
    case None => st
    case Some(url) =>
      if url in st.seen then st
      else
        var rel := RowRelease(era, parse, row);
        Listed(st.seen + {url}, st.releases + (if rel.Some? then [rel.value] else []))
  }

  /** The loop over the rows, in document order. */
  function Run(era: Era, parse: DateParser, seen: set<string>, rows: seq<Row>): Listed
    decreases |rows|
  {
    if rows == [] then Listed(seen, [])
    else Visit(era, parse, Run(era, parse, seen, rows[..|rows| - 1]), rows[|rows| - 1])
  }

  /** A row that claims no URL, or one already seen, changes nothing. */
  lemma VisitSkips(era: Era, parse: DateParser, st: Listed, row: Row)
    requires RowUrl(era, row).None? || RowUrl(era, row).value in st.seen
    ensures Visit(era, parse, st, row) == st
  {
  }

  /** A row that claims a new URL records it, and adds its release if it yields one. */
  lemma VisitRecords(era: Era, parse: DateParser, st: Listed, row: Row, url: string)
    requires RowUrl(era, row) == Some(url) && url !in st.seen
    ensures RowRelease(era, parse, row).None? ==> Visit(era, parse, st, row) == Listed(st.seen + {url}, st.releases)
    ensures RowRelease(era, parse, row).Some? ==>
      Visit(era, parse, st, row) == Listed(st.seen + {url}, st.releases + [RowRelease(era, parse, row).value])
  {
  }

  /** One more row of the loop. */
  lemma RunSnoc(era: Era, parse: DateParser, seen: set<string>, rows: seq<Row>, i: nat)
    requires i < |rows|
    ensures Run(era, parse, seen, rows[..i + 1]) == Visit(era, parse, Run(era, parse, seen, rows[..i]), rows[i])
  {
    assert rows[..i + 1][..i] == rows[..i];
  }

  /** `get_press_releases` on the fetched rows; None is a page that could not be fetched or was empty. */
  function PressReleases(era: Era, parse: DateParser, seen: set<string>, fetched: Option<seq<Row>>): Listed {
    match fetched
    case None => Listed(seen, [])
    case Some(rows) => Run(era, parse, seen, rows)
  }

  /** The row is one the listing turns into this release. */
  predicate Yields(era: Era, parse: DateParser, row: Row, rel: Release) {
    RowUrl(era, row) == Some(rel.url) && RowRelease(era, parse, row) == Some(rel)
  }

  /** Some row claims this URL. */
  predicate Claimed(era: Era, rows: seq<Row>, url: string) {
    exists k :: 0 <= k < |rows| && RowUrl(era, rows[k]) == Some(url)
  }

  // ------------------------------------------------------------ lemmas

  /** A release carries a date in the parser's output form and a non-empty headline. */
  lemma RowReleaseShape(era: Era, parse: DateParser, row: Row)
    requires RowUrl(era, row).Some?
    ensures RowRelease(era, parse, row).Some? ==>
      var rel := RowRelease(era, parse, row).value;
      parse(row.cells[1].text) == Some(rel.date) && rel.date != [] && rel.headline != []
  {
  }

  /** The rows claiming a URL are those before the last row, or the last row itself. */
  lemma ClaimedSnoc(era: Era, rows: seq<Row>, u: string)
    requires rows != []
    ensures Claimed(era, rows, u) <==>
      Claimed(era, rows[..|rows| - 1], u) || RowUrl(era, rows[|rows| - 1]) == Some(u)
  {
    var init := rows[..|rows| - 1];
    if Claimed(era, init, u) {
      var k :| 0 <= k < |init| && RowUrl(era, init[k]) == Some(u);
      assert rows[k] == init[k];
    }
    if Claimed(era, rows, u) {
      var k :| 0 <= k < |rows| && RowUrl(era, rows[k]) == Some(u);
      if k < |init| {
        assert init[k] == rows[k];
      }
    }
  }

  /** The set of seen URLs afterwards is exactly the old set plus every URL a row
      claims, including the URLs of rows whose date or headline was rejected. */
  lemma {:induction false} RunSeen(era: Era, parse: DateParser, seen: set<string>, rows: seq<Row>)
    ensures forall u :: u in Run(era, parse, seen, rows).seen <==> u in seen || Claimed(era, rows, u)
    decreases |rows|
  {
    if rows != [] {
      var init := rows[..|rows| - 1];
      RunSeen(era, parse, seen, init);
      forall u
        ensures u in Run(era, parse, seen, rows).seen <==> u in seen || Claimed(era, rows, u)
      {
        ClaimedSnoc(era, rows, u);
      }
    }
  }

  /** One row adds at most one release, at the end, and only for a URL it has just recorded. */
  lemma VisitShape(era: Era, parse: DateParser, st: Listed, row: Row)
    ensures st.seen <= Visit(era, parse, st, row).seen
    ensures |st.releases| <= |Visit(era, parse, st, row).releases| <= |st.releases| + 1
    ensures Visit(era, parse, st, row).releases[..|st.releases|] == st.releases
    ensures |Visit(era, parse, st, row).releases| == |st.releases| + 1 ==>
      var rel := Visit(era, parse, st, row).releases[|st.releases|];
      Yields(era, parse, row, rel) && rel.url !in st.seen && rel.url in Visit(era, parse, st, row).seen
  {
  }

  /** Every release carries a URL that was not seen before and is seen afterwards. */
  lemma {:induction false} RunFresh(era: Era, parse: DateParser, seen: set<string>, rows: seq<Row>)
    ensures seen <= Run(era, parse, seen, rows).seen
    ensures forall i :: 0 <= i < |Run(era, parse, seen, rows).releases| ==>
      Run(era, parse, seen, rows).releases[i].url !in seen && Run(era, parse, seen, rows).releases[i].url in Run(era, parse, seen, rows).seen
    decreases |rows|
  {
    if rows != [] {
      var init := rows[..|rows| - 1];
      var prev := Run(era, parse, seen, init);
      RunFresh(era, parse, seen, init);
      VisitShape(era, parse, prev, rows[|rows| - 1]);
      var r := Run(era, parse, seen, rows);
      forall i | 0 <= i < |r.releases|
        ensures r.releases[i].url !in seen && r.releases[i].url in r.seen
      {
        if i < |prev.releases| {
          assert r.releases[i] == prev.releases[i];
        }
      }
    }
  }

  /** Every release comes from a row of the listing. */
  lemma {:induction false} RunFromRows(era: Era, parse: DateParser, seen: set<string>, rows: seq<Row>)
    ensures forall i :: 0 <= i < |Run(era, parse, seen, rows).releases| ==>
      exists k :: 0 <= k < |rows| && Yields(era, parse, rows[k], Run(era, parse, seen, rows).releases[i])
    decreases |rows|
  {
    if rows != [] {
      var init := rows[..|rows| - 1];
      var prev := Run(era, parse, seen, init);
      RunFromRows(era, parse, seen, init);
      VisitShape(era, parse, prev, rows[|rows| - 1]);
      var r := Run(era, parse, seen, rows);
      forall i | 0 <= i < |r.releases|
        ensures exists k :: 0 <= k < |rows| && Yields(era, parse, rows[k], r.releases[i])
      {
        if i < |prev.releases| {
          assert r.releases[i] == prev.releases[i];
          var k :| 0 <= k < |init| && Yields(era, parse, init[k], prev.releases[i]);
          assert rows[k] == init[k];
        } else {
          var k := |rows| - 1;
          assert Yields(era, parse, rows[k], r.releases[i]);
        }
      }
      assert r == Run(era, parse, seen, rows);
    } else {
      assert Run(era, parse, seen, rows).releases == [];
    }
  }

  /** Every release comes from a row of the listing and carries a URL that was
      not seen before and is seen afterwards. */
  lemma RunReleases(era: Era, parse: DateParser, seen: set<string>, rows: seq<Row>)
    ensures forall i :: 0 <= i < |Run(era, parse, seen, rows).releases| ==>
      var rel := Run(era, parse, seen, rows).releases[i];
      rel.url !in seen && rel.url in Run(era, parse, seen, rows).seen
      && exists k :: 0 <= k < |rows| && Yields(era, parse, rows[k], rel)
  {
    RunFresh(era, parse, seen, rows);
    RunFromRows(era, parse, seen, rows);
  }

  /** No URL is listed twice, however many rows link to it. */
  lemma {:induction false} RunDistinct(era: Era, parse: DateParser, seen: set<string>, rows: seq<Row>)
    ensures forall i, j :: 0 <= i < j < |Run(era, parse, seen, rows).releases| ==>
      Run(era, parse, seen, rows).releases[i].url != Run(era, parse, seen, rows).releases[j].url
    decreases |rows|
  {
    if rows != [] {
      var init := rows[..|rows| - 1];
      var prev := Run(era, parse, seen, init);
      RunDistinct(era, parse, seen, init);
      RunFresh(era, parse, seen, init);
      VisitShape(era, parse, prev, rows[|rows| - 1]);
      var r := Run(era, parse, seen, rows);
      forall i, j | 0 <= i < j < |r.releases|
        ensures r.releases[i].url != r.releases[j].url
      {
        assert r.releases[i] == prev.releases[i];
        if j >= |prev.releases| {
          assert prev.releases[i].url in prev.seen;
        } else {
          assert r.releases[j] == prev.releases[j];
        }
      }
    }
  }

  /** Splitting the rows anywhere: the second part runs on the URLs the first part left seen. */
  lemma {:induction false} RunAppend(era: Era, parse: DateParser, seen: set<string>, a: seq<Row>, b: seq<Row>)
    ensures Run(era, parse, seen, a + b)
      == Listed(Run(era, parse, Run(era, parse, seen, a).seen, b).seen,
                Run(era, parse, seen, a).releases + Run(era, parse, Run(era, parse, seen, a).seen, b).releases)
    decreases |b|
  {
    if b == [] {
      assert a + b == a;
    } else {
      var b0 := b[..|b| - 1];
      assert (a + b)[..|a + b| - 1] == a + b0;
      RunAppend(era, parse, seen, a, b0);
    }
  }

  /** The first row to claim a new URL decides it: if that row's date and
      headline are good, its release is in the result. */
  lemma {:induction false} FirstClaimListed(era: Era, parse: DateParser, seen: set<string>, rows: seq<Row>, k: nat)
    requires k < |rows| && RowUrl(era, rows[k]).Some?
    requires RowUrl(era, rows[k]).value !in seen && !Claimed(era, rows[..k], RowUrl(era, rows[k]).value)
    requires RowRelease(era, parse, rows[k]).Some?
    ensures RowRelease(era, parse, rows[k]).value in Run(era, parse, seen, rows).releases
  {
    var url := RowUrl(era, rows[k]).value;
    var a, b := rows[..k + 1], rows[k + 1..];
    assert rows == a + b;
    assert a[..|a| - 1] == rows[..k];
    RunSeen(era, parse, seen, rows[..k]);
    RunAppend(era, parse, seen, a, b);
  }

  /** Running a listing a second time on the URLs it left seen yields nothing:
      the collector never reports the same page twice. */
  lemma RunAgainEmpty(era: Era, parse: DateParser, seen: set<string>, rows: seq<Row>)
    ensures Run(era, parse, Run(era, parse, seen, rows).seen, rows) == Listed(Run(era, parse, seen, rows).seen, [])
  {
    var seen1 := Run(era, parse, seen, rows).seen;
    forall k | 0 <= k < |rows| && RowUrl(era, rows[k]).Some?
      ensures RowUrl(era, rows[k]).value in seen1
    {
      ClaimedSeen(era, parse, seen, rows, k);
    }
    AllSeenNothingNew(era, parse, seen1, rows);
  }

  /** Rows whose URLs are all seen already change nothing. */
  lemma {:induction false} AllSeenNothingNew(era: Era, parse: DateParser, seen: set<string>, rows: seq<Row>)
    requires forall k :: 0 <= k < |rows| && RowUrl(era, rows[k]).Some? ==> RowUrl(era, rows[k]).value in seen
    ensures Run(era, parse, seen, rows) == Listed(seen, [])
    decreases |rows|
  {
    if rows != [] {
      var init := rows[..|rows| - 1];
      forall k | 0 <= k < |init| && RowUrl(era, init[k]).Some?
        ensures RowUrl(era, init[k]).value in seen
      {
        assert init[k] == rows[k];
      }
      AllSeenNothingNew(era, parse, seen, init);
      var k := |rows| - 1;
      if RowUrl(era, rows[k]).Some? {
        assert RowUrl(era, rows[k]).value in seen;
      }
    }
  }

  lemma ClaimedSeen(era: Era, parse: DateParser, seen: set<string>, rows: seq<Row>, k: nat)
    requires k < |rows| && RowUrl(era, rows[k]).Some?
    ensures RowUrl(era, rows[k]).value in Run(era, parse, seen, rows).seen
  {
    RunSeen(era, parse, seen, rows);
    assert Claimed(era, rows, RowUrl(era, rows[k]).value);
  }

  /** In the HTML collector every URL is non-empty; the text collector can list "" as a URL. */
  lemma HtmlUrlsNonEmpty(parse: DateParser, seen: set<string>, rows: seq<Row>)
    ensures forall rel :: rel in Run(HtmlEra, parse, seen, rows).releases ==> rel.url != []
  {
    RunReleases(HtmlEra, parse, seen, rows);
    forall rel | rel in Run(HtmlEra, parse, seen, rows).releases
      ensures rel.url != []
    {
      var i :| 0 <= i < |Run(HtmlEra, parse, seen, rows).releases| && Run(HtmlEra, parse, seen, rows).releases[i] == rel;
      var k :| 0 <= k < |rows| && Yields(HtmlEra, parse, rows[k], rel);
    }
  }

  /** A text-archive row whose link has no href still claims the URL "". */
  lemma TxtEmptyHrefClaimed(date: Cell, title: Cell)
    ensures RowUrl(TxtEra, Row([Cell("", Some(Anchor("", ""))), date, title])) == Some("")
    ensures RowUrl(HtmlEra, Row([Cell("", Some(Anchor("", ""))), date, title])) == None
  {
  }
}
