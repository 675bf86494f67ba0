# SECScraper press-release extraction, modelled in Dafny

SECScraper collects the press releases of the U.S. Securities and Exchange
Commission. It has two collectors: one for the 1977-2001 plain-text archive and
one for the later HTML pages. Each collector reads a yearly index page into a
list of releases (date, headline, URL). Each then turns a fetched release into
clean body text. A small parser reads the title and date of a text release. An
asynchronous crawler front end cleans crawled pages in rate-limited batches.

This project models that core without its network, HTML-parser and
HTML-to-Markdown libraries:

- `Strings` gives Python's string operations the code relies on: `strip`,
  `find`/`in`, `startswith`, `join`, `split`, `splitlines` and `split()`.
- `DateUtils` is `parse_date`.
- `Listing` is the row-by-row specification of `get_press_releases`, shared by
  both collectors. The two differ only in an `Era` flag. The date parser is a
  parameter of the specification; both collectors pass `DateUtils.ParseDate`.
- `TxtCollector` holds the text collector: a class with the growing set of seen
  URLs, plus the text cleaner.
- `TxtParser` is `parse_press_release`.
- `HtmlText` holds the concrete regular-expression steps of the HTML extractor:
  - tag removal and emphasis unwrapping;
  - the What/Who/When table;
  - the per-line dash cut and the removal of marker lines;
  - the blank-line collapse and the end-mark truncation.
- `HtmlCollector` holds the HTML collector class, and the extractor's two
  paragraph passes and post-processing.
- `Crawl` is `process_url` and `process_urls_with_rate_limit`.

Regular expressions are modelled as the left-to-right scans Python's `re`
performs: leftmost match, lazy or greedy repetition, `^` under `MULTILINE`, and
`.` stopping at a newline without `DOTALL`. The regular expressions that are not
modelled character by character are passed in as functions: the
`HtmlCollector.Library` fields, and the crawl outcomes of `Crawl`.

## Model

| member | source | states |
|---|---|---|
| DateUtils.ZFill | SECScraper/src/utils/date_utils.py:30-31 | `zfill`: the length is the larger of the width and the input's; an unsigned input is kept as the suffix behind '0's |
| DateUtils.ParseDate | SECScraper/src/utils/date_utils.py:5-74 | total; a result splits on '/' into three parts; off the slash path a result is a real Gregorian `MM/DD/YYYY` date |
| DateUtils.NamedMonthDate | SECScraper/src/utils/date_utils.py:34-70 | no match gives None; with a match, the month's first three letters lower-cased are a key of the month map, and the result is that key's number, '/', the zero-filled day, '/', the year when that date is a real one, else None |
| DateUtils.NotSlashFallsThrough | SECScraper/src/utils/date_utils.py:19-34 | a stripped input without '/', or with '/' but not three parts, goes to the month-name path |
| DateUtils.SearchFromLeftmost | SECScraper/src/utils/date_utils.py:44-48 | `re.search` returns the match at the leftmost index where the pattern matches |
| DateUtils.SearchFromNone | SECScraper/src/utils/date_utils.py:44-48 | `re.search` finds nothing when the pattern matches at no index |
| DateUtils.MonthFirstWins | SECScraper/src/utils/date_utils.py:44-46 | the leftmost "Month D, YYYY" match decides, whatever "D Month YYYY" matches, even further left |
| DateUtils.DayFirstFallback | SECScraper/src/utils/date_utils.py:47-50 | only when "Month D, YYYY" matches nowhere does the leftmost "D Month YYYY" match decide |
| DateUtils.NoNamedMatch | SECScraper/src/utils/date_utils.py:51-52 | neither pattern matching anywhere gives None |
| DateUtils.MonthIndexFrom | SECScraper/src/utils/date_utils.py:55-61 | finds the month whose three-letter key starts at the index, case-insensitively, or proves there is none |
| DateUtils.SlashShapeParts | SECScraper/src/utils/date_utils.py:22-25 | an input of three '/'-free parts takes the slash path with exactly those parts |
| DateUtils.SlashPath | SECScraper/src/utils/date_utils.py:22-32 | slash path: month and day are zero-padded; a non-two-character year passes unchanged; a two-digit year is 19YY at 77 or above, else 20YY; no calendar check |
| DateUtils.SlashResultParts | SECScraper/src/utils/date_utils.py:32 | every slash-path result splits back into exactly three parts |
| DateUtils.CanonicalDateParts | SECScraper/src/utils/date_utils.py:70 | a named-month result splits into exactly three parts |
| DateUtils.TwoDigitValue | SECScraper/src/utils/date_utils.py:28 | `int(year)` on two ASCII digits is their decimal value |
| DateUtils.SlashExample97 | SECScraper/src/utils/date_utils.py:27-28 | "1/2/97" gives "01/02/1997" |
| DateUtils.SlashExample05 | SECScraper/src/utils/date_utils.py:27-28 | "12/31/05" gives "12/31/2005" |
| DateUtils.MonthKeyFound | SECScraper/src/utils/date_utils.py:55-61 | the first three letters of any matched month name, lower-cased, are a key of the month map, so the lookup never raises |
| DateUtils.MonthFirstAtKey | SECScraper/src/utils/date_utils.py:40-46 | a "Month D, YYYY" match names a month of the map |
| DateUtils.DayFirstAt | SECScraper/src/utils/date_utils.py:42-50 | a "D Month YYYY" match names a month of the map |
| DateUtils.RealDate0305 | SECScraper/src/utils/date_utils.py:64-68 | "03/05/1998" passes the calendar check |
| DateUtils.MarchParsed | SECScraper/src/utils/date_utils.py:39-70 | "March 5, 1998" gives "03/05/1998" |
| DateUtils.MarDotParsed | SECScraper/src/utils/date_utils.py:36-46 | "Mar. 5, 1998" (the optional dot, the short form) gives "03/05/1998" |
| DateUtils.DayFirstParsed | SECScraper/src/utils/date_utils.py:41-50 | "5 March 1998" matches no "Month D, YYYY" anywhere and gives "03/05/1998" by the day-first pattern |
| DateUtils.Feb30Rejected | SECScraper/src/utils/date_utils.py:64-68 | "February 30, 1999" matches but fails the calendar check and gives None |
| DateUtils.NoMonthAt | SECScraper/src/utils/date_utils.py:35 | no month alternative matches where the three letters fold to no key of the month map |
| Listing.VisitSkips | SECScraper/src/collectors/txt_collector.py:30-46 | a row with under three cells, no link, or an already seen URL changes nothing |
| Listing.VisitRecords | SECScraper/src/collectors/txt_collector.py:44-59 | a new URL is recorded whether or not the row then yields a release |
| Listing.RowReleaseShape | SECScraper/src/collectors/txt_collector.py:50-59 | a release's date is the parser's output for the second cell, and its headline is not empty |
| Listing.RunSeen | SECScraper/src/collectors/txt_collector.py:44-47 | the seen set afterwards is the old set plus every URL some row claims, including rows whose date was rejected |
| Listing.VisitShape | SECScraper/src/collectors/txt_collector.py:44-59 | one row adds at most one release, at the end, for a URL it has just recorded |
| Listing.RunFresh | SECScraper/src/collectors/txt_collector.py:44-59 | every release carries a URL not seen before and seen afterwards; the seen set only grows |
| Listing.RunFromRows | SECScraper/src/collectors/txt_collector.py:27-59 | every release comes from a row that yields it |
| Listing.RunReleases | SECScraper/src/collectors/txt_collector.py:27-59 | every release comes from a row and carries a URL new to the collector |
| Listing.RunDistinct | SECScraper/src/collectors/txt_collector.py:44-47 | no URL is listed twice |
| Listing.RunAppend | SECScraper/src/collectors/txt_collector.py:27-28 | rows split anywhere: the second part runs on the URLs the first left seen |
| Listing.FirstClaimListed | SECScraper/src/collectors/txt_collector.py:44-59 | the first row claiming a new URL decides it: if it yields a release, that release is listed |
| Listing.RunAgainEmpty | SECScraper/src/collectors/txt_collector.py:44-46 | a second call on the same rows lists nothing and records nothing |
| Listing.AllSeenNothingNew | SECScraper/src/collectors/txt_collector.py:44-46 | rows whose URLs were all seen change nothing |
| Listing.ClaimedSeen | SECScraper/src/collectors/txt_collector.py:47 | every claimed URL is seen afterwards |
| Listing.HtmlUrlsNonEmpty | SECScraper/src/collectors/html_collector.py:38-40 | the HTML collector never lists an empty URL |
| Listing.TxtEmptyHrefClaimed | SECScraper/src/collectors/txt_collector.py:37-42 | the text collector claims "" for a link without href; the HTML collector skips it |
| TxtCollector.DatelineFromLeftmost | SECScraper/src/collectors/txt_collector.py:80 | the lazy `^.*?` before "Washington" stops at the leftmost index where a whole dateline starts |
| TxtCollector.DatelineFromNone | SECScraper/src/collectors/txt_collector.py:80 | the dateline search finds nothing when no dateline starts anywhere |
| TxtCollector.DropDatelineNone | SECScraper/src/collectors/txt_collector.py:80 | without a dateline the text is kept whole |
| TxtCollector.DropDatelineLeftmost | SECScraper/src/collectors/txt_collector.py:80 | with a dateline, the text is what follows the first dash of the leftmost dateline |
| TxtCollector.DropLeadingDash | SECScraper/src/collectors/txt_collector.py:83 | a text not opening with a dash is kept; one opening with a dash loses the dash ("--" counts as one) and exactly the blanks after it, so the rest starts with a non-blank or is empty |
| TxtCollector.KeptLinesPrefix | SECScraper/src/collectors/txt_collector.py:90-98 | the kept lines are the stripped lines before the first separator line, and none of them is a separator |
| TxtCollector.KeepLines | SECScraper/src/collectors/txt_collector.py:86-98 | the line loop with its `found_separator` flag computes the kept lines |
| TxtCollector.FirstTriple | SECScraper/src/collectors/txt_collector.py:106 | the leftmost place where the '#'/'*' triple pattern matches |
| TxtCollector.CutAtTriple | SECScraper/src/collectors/txt_collector.py:106 | the result is a prefix; a text with no triple match is kept whole; otherwise the text is cut at the leftmost index where the pattern matches |
| TxtCollector.CutAtTripleNoTriple | SECScraper/src/collectors/txt_collector.py:106 | after the cut no '#'/'*' triple is left |
| TxtCollector.CutBeforeTriple | SECScraper/src/collectors/txt_collector.py:106 | a text with a triple is cut before the triple's first mark |
| TxtCollector.CleanedBodyShape | SECScraper/src/collectors/txt_collector.py:100-108 | the cleaned text is trimmed, single-spaced and holds no '#'/'*' triple |
| TxtCollector.CleanedBodyEmpty | SECScraper/src/collectors/txt_collector.py:75-77 | empty content cleans to "" |
| TxtCollector.CleanBody | SECScraper/src/collectors/txt_collector.py:79-108 | the cleaner's steps compute the cleaned body, which is single-spaced and triple-free |
| TxtCollector.Collector.constructor | SECScraper/src/collectors/txt_collector.py:9-11 | starts with no URL seen |
| TxtCollector.Collector.GetPressReleases | SECScraper/src/collectors/txt_collector.py:13-70 | the listing loop computes the row-by-row listing from the old seen set; the set only grows; a failed fetch changes nothing |
| TxtCollector.Collector.ExtractPressReleaseText | SECScraper/src/collectors/txt_collector.py:72-108 | "" for no or empty content, otherwise the cleaned body; single-spaced and triple-free |
| TxtParser.FirstTitle | SECScraper/src/parsers/txt_parser.py:10-15 | "" exactly when no line qualifies; otherwise the stripped first qualifying line |
| TxtParser.TitleIndexFrom | SECScraper/src/parsers/txt_parser.py:11-15 | the index of the first qualifying line from i on, or none when no line from i on qualifies |
| TxtParser.FirstQualifying | SECScraper/src/parsers/txt_parser.py:12-15 | the first qualifying line is the title |
| TxtParser.IndentedQualifies | SECScraper/src/parsers/txt_parser.py:13 | every skipped prefix opens with a letter, so any non-blank line that opens with whitespace qualifies |
| TxtParser.IndentedSkipQualifies | SECScraper/src/parsers/txt_parser.py:13 | the skip prefixes are tested before stripping: an indented "FOR IMMEDIATE RELEASE" qualifies |
| TxtParser.SlashDateAt | SECScraper/src/parsers/txt_parser.py:19 | a `d/d/dddd` match at an index spans at least eight characters |
| TxtParser.SlashDateFrom | SECScraper/src/parsers/txt_parser.py:20 | the leftmost index where a slash date starts, or none |
| TxtParser.SlashDateText | SECScraper/src/parsers/txt_parser.py:20-22 | the matched text, cut out, is itself exactly one slash date |
| TxtParser.FirstSlashDate | SECScraper/src/parsers/txt_parser.py:18-22 | "" exactly when no slash date occurs; otherwise the slash date cut from the content at the leftmost index where one matches |
| TxtParser.ParsePressRelease | SECScraper/src/parsers/txt_parser.py:6-31 | the title loop and the date search give the first qualifying title and the leftmost date |
| Crawl.ProcessUrl | SECScraper/main_crawl4ai.py:42-50 | "" when the crawl fails, else the cleaned markdown |
| Crawl.UrlTextShape | SECScraper/main_crawl4ai.py:42-50 | what `process_url` returns is single-spaced and free of '#'/'*' triples |
| Crawl.BatchCountExact | SECScraper/main_crawl4ai.py:57-59 | the printed count `ceil(n / size)` is the number of loop starts below n |
| Crawl.TabulateAppend | SECScraper/main_crawl4ai.py:66 | extending results batch by batch gives the results of the whole range |
| Crawl.TabulateIndex | SECScraper/main_crawl4ai.py:62-66 | the k-th result is the outcome for the k-th URL of the range |
| Crawl.ProcessNext | SECScraper/main_crawl4ai.py:62-65 | processing the next URL appends its text to the results of the URLs before it |
| Crawl.ProcessBatch | SECScraper/main_crawl4ai.py:62-65 | a batch's results are its URLs' texts in URL order |
| Crawl.DelayExceptLast | SECScraper/main_crawl4ai.py:68-71 | a delay follows every batch except the last |
| Crawl.BatchesSnoc | SECScraper/main_crawl4ai.py:57-58 | the next slice extends the concatenated batches by the next URLs |
| Crawl.BatchesComplete | SECScraper/main_crawl4ai.py:57-59 | once the loop reaches the end of the list, the batches number ceil(n/size) and concatenate to the list |
| Crawl.ProcessUrlsWithRateLimit | SECScraper/main_crawl4ai.py:52-73 | size 0 raises; negative gives []; otherwise one text per URL in order, ceil(n/size) batches of consecutive slices whose concatenation is the URL list |
| HtmlText.TagAt | SECScraper/src/collectors/html_collector.py:109 | a tag matches exactly when a '<' is followed by a non-'>' and a later '>'; it ends at the first '>' |
| HtmlText.StripTags | SECScraper/src/collectors/html_collector.py:109 | tag removal keeps only characters of the input and leaves no tag |
| HtmlText.StripTagsPlainPrefix | SECScraper/src/collectors/html_collector.py:109 | text without '<' is copied through, and removal goes on after it |
| HtmlText.StripTagsDropsTag | SECScraper/src/collectors/html_collector.py:109 | a tag `<x>` (x non-empty, no '>') is removed and removal resumes just after its '>' |
| HtmlText.StripTagsKeepsText | SECScraper/src/collectors/html_collector.py:109 | text before a tag is kept, the tag goes, and the rest is stripped in turn |
| HtmlText.NoTagFixed | SECScraper/src/collectors/html_collector.py:109 | tag-free text is left as it is |
| HtmlText.StripTagsIdempotent | SECScraper/src/collectors/html_collector.py:109 | removing tags twice removes nothing more |
| HtmlText.EmCloseFrom | SECScraper/src/collectors/html_collector.py:108 | the lazy group ends at the first closing `</em>`/`</i>`, never crossing a newline; None exactly when no closing tag comes before the next newline |
| HtmlText.EmISub | SECScraper/src/collectors/html_collector.py:108 | unwrapping never lengthens the text and leaves text without '<' alone |
| HtmlText.EmISubUnwraps | SECScraper/src/collectors/html_collector.py:108 | an `<em>`/`<i>` span whose text holds no newline and no `</em>`/`</i>` is replaced by its text, and the substitution resumes after the closing tag |
| HtmlText.EmISubKeeps | SECScraper/src/collectors/html_collector.py:108 | a character other than '<' is copied and the substitution resumes after it |
| HtmlText.CleanParagraph | SECScraper/src/collectors/html_collector.py:106-110 | a cleaned paragraph is trimmed and tag-free |
| HtmlText.GroupText | SECScraper/src/collectors/html_collector.py:120 | a cleaned group is trimmed and tag-free |
| HtmlText.EmphasisUnwrapped | SECScraper/src/collectors/html_collector.py:106-110 | `<em>May 1</em>` cleans to "May 1" |
| HtmlText.HomeNewsExample | SECScraper/src/collectors/html_collector.py:131 | "Home > News" is navigation, "Homepage News" is not |
| HtmlText.FieldCellAt | SECScraper/src/collectors/html_collector.py:173 | the field-cell pattern anchored at an index gives the bounds of the captured cell text |
| HtmlText.FieldFrom | SECScraper/src/collectors/html_collector.py:173 | the leftmost index where the field regex matches, or proof that none exists |
| HtmlText.TableItem | SECScraper/src/collectors/html_collector.py:173-176 | no match gives no item; otherwise "FIELD " and the cleaned text of the leftmost match's cell, or no item when that text is blank |
| HtmlText.TableItems | SECScraper/src/collectors/html_collector.py:171-176 | at most one item per field, none empty |
| HtmlText.CollectTableItems | SECScraper/src/collectors/html_collector.py:169-177 | the field loop computes the table items in field order |
| HtmlText.FirstDash | SECScraper/src/collectors/html_collector.py:287 | the index of the first dash of a line, or proof there is none |
| HtmlText.DashCutLine | SECScraper/src/collectors/html_collector.py:287 | a line loses exactly the text up to and including its first dash, and is unchanged iff it has none |
| HtmlText.DashCutKeepsLines | SECScraper/src/collectors/html_collector.py:287 | line k of the result is line k of the text, cut |
| HtmlText.HyphenCut | SECScraper/src/collectors/html_collector.py:287 | "A well-known firm" becomes "known firm": a hyphen inside a word also cuts |
| HtmlText.MarkerLineAt | SECScraper/src/collectors/html_collector.py:290 | a marker line starts at a line start, its first non-blank is '#' or '*', it holds no newline from there to its end, and it ends before a newline or at the end of the text |
| HtmlText.RemoveMarkerLinesFromShape | SECScraper/src/collectors/html_collector.py:290 | after every newline of what the scan leaves no blanks-then-'#'/'*' follow, nor at its start when the scan starts a line or the text does not open with one |
| HtmlText.RemoveMarkerLines | SECScraper/src/collectors/html_collector.py:290 | no line of the result is a marker line |
| HtmlText.NoMarkerLineCopied | SECScraper/src/collectors/html_collector.py:290 | text without marker lines is copied unchanged |
| HtmlText.RemoveMarkerLinesIdempotent | SECScraper/src/collectors/html_collector.py:290 | removing marker lines twice removes nothing more |
| HtmlText.KeptLine | SECScraper/src/collectors/html_collector.py:290 | a line whose first non-blank is not '#' or '*' is kept with its newline, and removal goes on with the next line |
| HtmlText.DropsMarkerLine | SECScraper/src/collectors/html_collector.py:290 | a line whose first non-blank is '#' or '*' is dropped, its newline stays, and removal goes on with the next line |
| HtmlText.CollapseNewlines | SECScraper/src/collectors/html_collector.py:293 | no three newlines in a row remain; empty iff the input is; a leading newline stays |
| HtmlText.CollapseFixed | SECScraper/src/collectors/html_collector.py:293 | text without three newlines in a row is left as it is |
| HtmlText.CollapseKeepsText | SECScraper/src/collectors/html_collector.py:293 | text without a newline is copied, and collapsing goes on after it |
| HtmlText.CollapseRun | SECScraper/src/collectors/html_collector.py:293 | a whole run of newlines becomes two when it has three or more and stays otherwise, and collapsing goes on after it |
| HtmlText.TruncatedBy | SECScraper/src/collectors/html_collector.py:299-305 | the truncated text is a prefix of the input holding none of the marks |
| HtmlText.TruncatedByClean | SECScraper/src/collectors/html_collector.py:300-305 | text holding no mark is left whole |
| HtmlText.TruncateAtEndMarks | SECScraper/src/collectors/html_collector.py:300-305 | the loop over the end marks computes the truncation |
| HtmlText.TruncatedBySnoc | SECScraper/src/collectors/html_collector.py:301-303 | one round cuts before the first occurrence of its mark, if any |
| HtmlText.SequentialNotEarliest | SECScraper/src/collectors/html_collector.py:300-305 | marks are tried in list order: "A # # ###" becomes "A # # ", not the text before the earlier "# # #" |
| HtmlCollector.Captured | SECScraper/src/collectors/html_collector.py:184-189 | a captured date-only group counts only when its cleaned text is non-empty, and it is trimmed |
| HtmlCollector.FirstPassOf | SECScraper/src/collectors/html_collector.py:104-124 | every first-pass paragraph is non-empty and trimmed |
| HtmlCollector.FirstPassKeepsAll | SECScraper/src/collectors/html_collector.py:104-157 | without the literal `{0,1,2}`, the first pass is exactly the non-blank cleaned paragraphs in order |
| HtmlCollector.FirstPassMatch | SECScraper/src/collectors/html_collector.py:104-157 | one match appends its cleaned text and date-only text; the skip tests and the de-duplicating append never change that |
| HtmlCollector.FirstPass | SECScraper/src/collectors/html_collector.py:100-157 | the first-pass loop computes the first-pass paragraphs |
| HtmlCollector.BlankOnlyWhenEmpty | SECScraper/src/collectors/html_collector.py:160-163 | the joined first-pass text is blank exactly when the first pass kept nothing |
| HtmlCollector.SecondPassMatch | SECScraper/src/collectors/html_collector.py:166-253 | one match of the second pass is one step of its specification; `stop` is the `break` |
| HtmlCollector.SecondPass | SECScraper/src/collectors/html_collector.py:163-255 | the second-pass loop, with its breaks, computes the second-pass paragraphs |
| HtmlCollector.SecondPassWellSpaced | SECScraper/src/collectors/html_collector.py:250-253 | a blank entry never opens or ends the paragraphs and stands between two non-blank ones |
| HtmlCollector.SecondPassFromAppend | SECScraper/src/collectors/html_collector.py:166 | the pass over two stretches of matches is the pass over the first, continued over the second |
| HtmlCollector.BreakIgnoresRest | SECScraper/src/collectors/html_collector.py:178-180 | once a table or end marker has stopped the pass, later matches make no difference |
| HtmlCollector.MarkerStops | SECScraper/src/collectors/html_collector.py:216-218 | a reached paragraph with an end marker adds nothing, and neither does anything after it |
| HtmlCollector.QuietPageEmpty | SECScraper/src/collectors/html_collector.py:232-253 | with no heading, table fields or date-only form, the second pass keeps nothing |
| HtmlCollector.CleanedFullText | SECScraper/src/collectors/html_collector.py:262-294 | the cleaned full text is trimmed and has no three newlines in a row |
| HtmlCollector.Finished | SECScraper/src/collectors/html_collector.py:299-305 | the returned text is a prefix of the converted text, stripped; it is trimmed and holds none of the six end marks |
| HtmlCollector.FinishedClean | SECScraper/src/collectors/html_collector.py:299-305 | a trimmed converted text holding no end mark is returned as it is |
| HtmlCollector.Collector.constructor | SECScraper/src/collectors/html_collector.py:10-12 | starts with no URL seen |
| HtmlCollector.Collector.GetPressReleases | SECScraper/src/collectors/html_collector.py:14-83 | the HTML listing loop computes the row-by-row listing; the set only grows; every release URL is non-empty and new; a failed fetch changes nothing |
| HtmlCollector.Collector.ExtractPressReleaseText | SECScraper/src/collectors/html_collector.py:85-309 | "" when nothing was fetched; otherwise the specified extraction, trimmed and free of end marks |

## Left out

- Fetching (`get_page_content`), retries, sleeping and the network: the listing takes the fetched rows as an option, and the extractors take the fetched text or `<p>` matches as an option. None stands for a page that could not be fetched or was empty.
- BeautifulSoup: the rows, cells and anchors of an index page, and the `<p>...</p>` matches of `str(soup)`, are inputs. The tables of an index page are flattened into one row sequence.
- `html2text`, and the regular expressions of html_collector.py lines 118 (its capture group), 127, 183, 192, 201, 263-270, 273-280 and 283-284: these are function fields of `HtmlCollector.Library`. The model proves what holds whatever they compute.
- HtmlCollector.BracedDateOnly: the line 118 pattern holds the text `{0,1,2}`, which Python reads literally. It is modelled as matching only a paragraph that contains that text; the rest of the pattern is the abstract capture.
- HtmlCollector.Finished: states that no end mark remains. It does not state that the text is cut before the earliest marker, because the loop cuts mark by mark in list order (`HtmlText.SequentialNotEarliest`).
- Case-insensitive matching folds ASCII letters only, and `\d` is ASCII digits only; Unicode case folding and Unicode digits are not modelled.
- Exceptions raised inside foreign code (the parser, the converter) are not modelled. Where the model's own operations can fail, the handlers are modelled: a failed crawl gives "" in `Crawl.ProcessUrl` (main_crawl4ai.py:43-50), and a failed `int()` on a two-character year gives None in `DateUtils.ParseDate` through `IntOfTwoChars` (date_utils.py:28, 72-74). `process_urls_with_rate_limit` has no handler: a zero batch size makes `range` raise out of the function, and the model's None stands for that uncaught error.
- Crawl: `asyncio.gather` is an order-preserving map over a batch, and `asyncio.sleep` is recorded as the `delayAfter` flag of a batch. `print` and `logging` output are not modelled.
- `clean_text` in main_crawl4ai.py performs the same steps as the text collector's cleaner, so `Crawl.ProcessUrl` uses `TxtCollector.CleanBody`.
- The URL of a yearly index page is built from the year; that string formatting is not modelled.
- SECScraper/main.py, src/parsers/html_parser.py, src/collectors/base_collector.py, config and tickerDataMiner are not part of this model.
