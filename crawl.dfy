/**
 * The crawler front end: `process_url`, and the batching of
 * `process_urls_with_rate_limit`. Its `clean_text` repeats the text collector's
 * cleaner step for step, so `process_url` is modelled with `TxtCollector.CleanBody`.
 *
 * The crawler itself is outside the model: the outcome of crawling the k-th URL
 * is a parameter, and the concurrent gather of a batch is an order-preserving map.
 */
module Crawl {
  import opened Options
  import opened Strings
  import opened TxtCollector

  /** What crawling one URL gave: its raw markdown, or an exception. */
  datatype CrawlOutcome = Crawled(markdown: string) | Failed

  /** One pass of the batch loop: its 1-based number as printed, the printed
      total, the URLs it processed, and whether a delay followed it. */
  datatype Batch = Batch(number: nat, total: nat, urls: seq<string>, delayAfter: bool)

  /** The text `process_url` returns for a crawl outcome. */
  function UrlText(outcome: CrawlOutcome): string {
    match outcome
    case Failed => ""
    case Crawled(markdown) => CleanedBody(markdown)
  }

  /** `process_url`: the cleaned markdown, or "" when the crawl raised. */
  method ProcessUrl(outcome: CrawlOutcome) returns (text: string)
    ensures text == UrlText(outcome)
    ensures outcome.Failed? ==> text == ""
  {
    match outcome
    case Failed =>
      text := "";
    case Crawled(markdown) =>
      text := CleanBody(markdown);
  }

  /** What `process_url` returns is single-spaced and free of '#'/'*' triples. */
  lemma UrlTextShape(outcome: CrawlOutcome)
    ensures SingleSpaced(UrlText(outcome)) && NoTriple(UrlText(outcome))
  {
    if outcome.Crawled? {
      CleanedBodyShape(outcome.markdown);
    }
  }

  function Min(a: int, b: int): int {
    if a <= b then a else b
  }

  /** The printed number of batches, `(len(urls) + batch_size - 1) // batch_size`. */
  function BatchCount(n: nat, size: nat): nat
    requires size > 0
  {
    (n + size - 1) / size
  }

  /** The j-th batch: the slice `urls[j*size : j*size + size]`, followed by a
      delay unless it reaches the end of the list. */
  function BatchAt(urls: seq<string>, size: nat, j: nat): Batch
    requires size > 0 && j * size <= |urls|
  {
    Batch(j + 1, BatchCount(|urls|, size), urls[j * size..Min(j * size + size, |urls|)], j * size + size < |urls|)
  }

  /** The URLs of the batches, one batch after the other. */
  function Concat(batches: seq<Batch>): seq<string> {
    if batches == [] then [] else Concat(batches[..|batches| - 1]) + batches[|batches| - 1].urls
  }

  lemma MulSucc(j: nat, size: nat)
    ensures (j + 1) * size == j * size + size
  {
  }

  /** The loop runs once for every start `j*size` below the length, which is the printed count. */
  lemma BatchCountExact(n: nat, size: nat, j: nat)
    requires size > 0
    ensures j < BatchCount(n, size) <==> j * size < n
  {
    var q := BatchCount(n, size);
    assert q * size <= n + size - 1 < q * size + size;
    if j < q {
      assert j * size <= (q - 1) * size;
    } else {
      assert j * size >= q * size;
    }
  }

  /** `[f(lo), ..., f(hi - 1)]`. */
  function Tabulate(f: nat -> string, lo: nat, hi: nat): (r: seq<string>)
    requires lo <= hi
    ensures |r| == hi - lo
    decreases hi
  {
    if hi == lo then [] else Tabulate(f, lo, hi - 1) + [f(hi - 1)]
  }

  /** Two adjacent ranges tabulate to the tabulation of their union. */
  lemma {:induction false} TabulateAppend(f: nat -> string, a: nat, b: nat, c: nat)
    requires a <= b <= c
    ensures Tabulate(f, a, b) + Tabulate(f, b, c) == Tabulate(f, a, c)
    decreases c
  {
    if c > b {
      TabulateAppend(f, a, b, c - 1);
    }
  }

  /** The k-th entry of a tabulation is `f(lo + k)`. */
  lemma {:induction false} TabulateIndex(f: nat -> string, lo: nat, hi: nat, k: nat)
    requires lo <= hi && k < hi - lo
    ensures Tabulate(f, lo, hi)[k] == f(lo + k)
    decreases hi
  {
    if k + lo + 1 < hi {
      TabulateIndex(f, lo, hi - 1, k);
    }
  }

  /** What `process_url` gives for the k-th URL. */
  function TextOf(urls: seq<string>, crawl: (nat, string) -> CrawlOutcome): nat -> string {
    (k: nat) => if k < |urls| then UrlText(crawl(k, urls[k])) else ""
  }

  /** Tabulating `TextOf` one URL further appends that URL's text. */
  lemma TextOfStep(urls: seq<string>, crawl: (nat, string) -> CrawlOutcome, lo: nat, k: nat, text: string)
    requires lo <= k < |urls| && text == UrlText(crawl(k, urls[k]))
    ensures Tabulate(TextOf(urls, crawl), lo, k + 1) == Tabulate(TextOf(urls, crawl), lo, k) + [text]
  {
    var f := TextOf(urls, crawl);
    assert f(k) == text;
  }

  /** `process_url` on the k-th URL, appended to the results of the URLs from lo to k. */
  method ProcessNext(urls: seq<string>, crawl: (nat, string) -> CrawlOutcome, lo: nat, k: nat, texts: seq<string>)
    returns (texts': seq<string>)
    requires lo <= k < |urls| && texts == Tabulate(TextOf(urls, crawl), lo, k)
    ensures texts' == Tabulate(TextOf(urls, crawl), lo, k + 1)
  {
    var text := ProcessUrl(crawl(k, urls[k]));
    TextOfStep(urls, crawl, lo, k, text);
    texts' := texts + [text];
  }

  /** One batch, `urls[lo:hi]`, through `process_url`; `asyncio.gather` keeps
      the results in the order of the URLs. */
  method ProcessBatch(urls: seq<string>, lo: nat, hi: nat, crawl: (nat, string) -> CrawlOutcome)
    returns (texts: seq<string>)
    requires lo <= hi <= |urls|
    ensures texts == Tabulate(TextOf(urls, crawl), lo, hi)
  {
    texts := [];
    var k := lo;
    while k < hi
      invariant lo <= k <= hi
      invariant texts == Tabulate(TextOf(urls, crawl), lo, k)
    {
      texts := ProcessNext(urls, crawl, lo, k, texts);
      k := k + 1;
    }
  }

  /** A delay follows every batch but the last. */
  lemma DelayExceptLast(urls: seq<string>, size: nat, j: nat)
    requires size > 0 && j < BatchCount(|urls|, size)
    ensures j * size < |urls|
    ensures BatchAt(urls, size, j).delayAfter <==> j + 1 < BatchCount(|urls|, size)
  {
    BatchCountExact(|urls|, size, j);
    BatchCountExact(|urls|, size, j + 1);
    MulSucc(j, size);
  }

  /** The batches are the first |batches| batches of the list. */
  predicate BatchesSoFar(urls: seq<string>, size: nat, batches: seq<Batch>)
    requires size > 0
  {
    (forall j :: 0 <= j < |batches| ==> j * size <= |urls| && batches[j] == BatchAt(urls, size, j))
    && Concat(batches) == urls[..Min(|batches| * size, |urls|)]
  }

  /** The next batch extends the batches so far. */
  lemma BatchesSnoc(urls: seq<string>, size: nat, batches: seq<Batch>)
    requires size > 0 && |batches| * size < |urls|
    requires BatchesSoFar(urls, size, batches)
    ensures BatchesSoFar(urls, size, batches + [BatchAt(urls, size, |batches|)])
  {
    var next := batches + [BatchAt(urls, size, |batches|)];
    forall j | 0 <= j < |next| ensures j * size <= |urls| && next[j] == BatchAt(urls, size, j) {
      if j < |batches| {
        assert next[j] == batches[j];
      }
    }
    assert next[..|next| - 1] == batches;
    MulSucc(|batches|, size);
    var i := |batches| * size;
    assert Concat(next) == urls[..i] + urls[i..Min(i + size, |urls|)];
    assert urls[..i] + urls[i..Min(i + size, |urls|)] == urls[..Min(i + size, |urls|)];
  }

  /** One pass of the batch loop: the batch starting at `|batches| * size` is
      processed and recorded. */
  method RunBatch(urls: seq<string>, size: nat, crawl: (nat, string) -> CrawlOutcome,
                  done: seq<string>, batches: seq<Batch>)
    returns (done': seq<string>, batches': seq<Batch>)
    requires size > 0 && |batches| * size < |urls|
    requires done == Tabulate(TextOf(urls, crawl), 0, |batches| * size)
    requires BatchesSoFar(urls, size, batches)
    ensures batches' == batches + [BatchAt(urls, size, |batches|)]
    ensures |batches'| * size == |batches| * size + size
    ensures done' == Tabulate(TextOf(urls, crawl), 0, Min(|batches| * size + size, |urls|))
    ensures BatchesSoFar(urls, size, batches')
  {
    var i := |batches| * size;
    var batchResults := ProcessBatch(urls, i, Min(i + size, |urls|), crawl);
    TabulateAppend(TextOf(urls, crawl), 0, i, Min(i + size, |urls|));
    done' := done + batchResults;
    var batch := NextBatch(urls, size, |batches|);
    BatchesSnoc(urls, size, batches);
    MulSucc(|batches|, size);
    batches' := batches + [batch];
  }

  /** The record of the j-th pass: its number, the total, its URLs, and
      whether the delay follows. */
  method NextBatch(urls: seq<string>, size: nat, j: nat) returns (batch: Batch)
    requires size > 0 && j * size < |urls|
    ensures batch == BatchAt(urls, size, j)
  {
    var i := j * size;
    var batchUrls := urls[i..Min(i + size, |urls|)];
    var delayAfter := i + size < |urls|;
    batch := Batch(j + 1, BatchCount(|urls|, size), batchUrls, delayAfter);
  }

  /** Once the batches reach the end of the list they are all the batches, and
      together they are the list. */
  lemma BatchesComplete(urls: seq<string>, size: nat, batches: seq<Batch>)
    requires size > 0 && BatchesSoFar(urls, size, batches)
    requires |urls| <= |batches| * size && |batches| <= BatchCount(|urls|, size)
    ensures |batches| == BatchCount(|urls|, size)
    ensures Concat(batches) == urls
  {
    BatchCountExact(|urls|, size, |batches|);
    assert urls[..Min(|batches| * size, |urls|)] == urls;
  }

  /** `process_urls_with_rate_limit`. A batch size of 0 makes `range` raise
      (None here); a negative one gives an empty range and an empty result. */
  method ProcessUrlsWithRateLimit(urls: seq<string>, batchSize: int, crawl: (nat, string) -> CrawlOutcome)
    returns (results: Option<seq<string>>, batches: seq<Batch>)
    ensures results.None? <==> batchSize == 0
    ensures batchSize < 0 ==> results == Some([]) && batches == []
    ensures batchSize > 0 ==> results == Some(Tabulate(TextOf(urls, crawl), 0, |urls|))
    ensures batchSize > 0 ==> |batches| == BatchCount(|urls|, batchSize)
    ensures batchSize > 0 ==>
      forall j :: 0 <= j < |batches| ==> j * batchSize <= |urls| && batches[j] == BatchAt(urls, batchSize, j)
    ensures batchSize > 0 ==> Concat(batches) == urls
  {
    if batchSize == 0 {
      return None, [];
    }
    if batchSize < 0 {
      return Some([]), [];
    }
    var size: nat := batchSize;
    var done: seq<string> := [];
    batches := [];
    var i := 0;
    while i < |urls|
      invariant i == |batches| * size
      invariant |batches| <= BatchCount(|urls|, size)
      invariant done == Tabulate(TextOf(urls, crawl), 0, Min(i, |urls|))
      invariant BatchesSoFar(urls, size, batches)
      decreases |urls| - i
    {
      BatchCountExact(|urls|, size, |batches|);
      done, batches := RunBatch(urls, size, crawl, done, batches);
      i := i + size;
    }
    BatchesComplete(urls, size, batches);
    results := Some(done);
  }
}
