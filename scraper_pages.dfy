/** The page loop each scraper runs: it visits numbered search pages, turns
    each product card into a row, and stops when it has enough products, has
    visited its page budget, or (Amazon only) meets a page without results.
    Loading a page is left abstract: `load(n)` is the list of product cards
    the browser finds on search page `n`. */
module ScraperPages {
  import opened Wrappers
  import opened Text
  import Seqs
  import opened ScraperCards

  /** The rows the cards of one page produce, skipped cards left out. */
  function Records<C>(cards: seq<C>, item: C -> Option<Scraped>): (r: seq<Scraped>)
    ensures |r| <= |cards|
  {
    if cards == [] then []
    else
      var last := item(cards[|cards| - 1]);
      Records(cards[..|cards| - 1], item) + (if last.Some? then [last.value] else [])
  }

  /** The rows of search pages 1 to n, page after page. */
  function RecordsOfPages<C>(load: nat -> seq<C>, item: C -> Option<Scraped>, n: nat): seq<Scraped>
  {
    if n == 0 then [] else RecordsOfPages(load, item, n - 1) + Records(load(n), item)
  }

  /** The number of pages whose cards are read: the page budget, cut before
      the first page without cards when the crawler stops on one. */
  function PagesToRead<C>(load: nat -> seq<C>, maxPages: nat, stopOnEmpty: bool): (n: nat)
    ensures n <= maxPages
    ensures forall k :: 1 <= k <= n ==> !(stopOnEmpty && |load(k)| == 0)
    ensures n < maxPages ==> stopOnEmpty && |load(n + 1)| == 0
  {
    if maxPages == 0 then 0
    else
      var n := PagesToRead(load, maxPages - 1, stopOnEmpty);
      if n < maxPages - 1 then n
      else if stopOnEmpty && |load(maxPages)| == 0 then n
      else maxPages
  }

  /** The pages read before page n are a prefix of those read up to page m. */
  lemma {:induction false} RecordsOfPagesPrefix<C>(load: nat -> seq<C>, item: C -> Option<Scraped>, n: nat, m: nat)
    requires n <= m
    ensures |RecordsOfPages(load, item, n)| <= |RecordsOfPages(load, item, m)|
    ensures RecordsOfPages(load, item, m)[..|RecordsOfPages(load, item, n)|] == RecordsOfPages(load, item, n)
    decreases m
  {
    if n < m {
      RecordsOfPagesPrefix(load, item, n, m - 1);
      var a, b := RecordsOfPages(load, item, n), RecordsOfPages(load, item, m - 1);
      assert RecordsOfPages(load, item, m) == b + Records(load(m), item);
      assert (b + Records(load(m), item))[..|a|] == b[..|a|];
    }
  }

  /** The rows of the first i cards are a prefix of the rows of the page. */
  lemma {:induction false} RecordsPrefix<C>(cards: seq<C>, item: C -> Option<Scraped>, i: nat)
    requires i <= |cards|
    ensures |Records(cards[..i], item)| <= |Records(cards, item)|
    ensures Records(cards, item)[..|Records(cards[..i], item)|] == Records(cards[..i], item)
    decreases |cards|
  {
    if i < |cards| {
      var init := cards[..|cards| - 1];
      assert init[..i] == cards[..i];
      RecordsPrefix(init, item, i);
      var a, b := Records(cards[..i], item), Records(init, item);
      assert Records(cards, item)[..|b|] == b;
      assert b[..|a|] == a;
    } else {
      assert cards[..i] == cards;
    }
  }

  /** Cutting a sequence at n sees only its first n elements. */
  lemma TakeOfExtension<T>(a: seq<T>, b: seq<T>, n: int)
    requires |a| <= |b| && b[..|a|] == a && |a| >= n
    ensures Seqs.Take(a, n) == Seqs.Take(b, n)
  {
  }

  /** The `for card in cards` loop: appends the rows of the cards until
      maxProducts rows are collected. */
  method AppendPage<C>(results: seq<Scraped>, cards: seq<C>, item: C -> Option<Scraped>, maxProducts: int,
                       ghost before: seq<Scraped>)
    returns (out: seq<Scraped>)
    requires results == Seqs.Take(before, maxProducts)
    ensures out == Seqs.Take(before + Records(cards, item), maxProducts)
  {
    out := results;
    var i := 0;
    while i < |cards|
      invariant 0 <= i <= |cards|
      invariant out == Seqs.Take(before + Records(cards[..i], item), maxProducts)
    {
      if |out| >= maxProducts {
        break;
      }
      assert cards[..i + 1][..i] == cards[..i];
      var r := item(cards[i]);
      if r.Some? {
        out := out + [r.value];
      }
      i := i + 1;
    }
    if i < |cards| {
      RecordsPrefix(cards, item, i);
      TakeOfExtension(before + Records(cards[..i], item), before + Records(cards, item), maxProducts);
    } else {
      assert cards[..i] == cards;
    }
  }

  /** The page budget: the loop visits no page when max_pages is below 1. */
  function PageBudget(maxPages: int): nat {
    if maxPages < 0 then 0 else maxPages
  }

  /** What a crawl returns: the rows of the pages it reads, cut at maxProducts. */
  ghost function Crawled<C>(load: nat -> seq<C>, item: C -> Option<Scraped>, maxProducts: int, maxPages: int,
                            stopOnEmpty: bool): seq<Scraped>
  {
    Seqs.Take(RecordsOfPages(load, item, PagesToRead(load, PageBudget(maxPages), stopOnEmpty)), maxProducts)
  }

  /** A crawl: the products of the pages read, cut at maxProducts; `visited`
      counts the pages loaded. */
  method Crawl<C>(load: nat -> seq<C>, item: C -> Option<Scraped>, maxProducts: int, maxPages: int,
                  stopOnEmpty: bool)
    returns (results: seq<Scraped>, visited: nat)
    ensures results == Crawled(load, item, maxProducts, maxPages, stopOnEmpty)
    ensures visited <= PageBudget(maxPages)
  {
    ghost var budget := PageBudget(maxPages);
    ghost var last := PagesToRead(load, budget, stopOnEmpty);
    results := [];
    visited := 0;
    var pageNum := 1;
    while |results| < maxProducts && pageNum <= maxPages
      invariant 1 <= pageNum <= budget + 1 && pageNum - 1 <= last
      invariant visited == pageNum - 1
      invariant results == Seqs.Take(RecordsOfPages(load, item, pageNum - 1), maxProducts)
      decreases maxPages - pageNum
    {
      var items := load(pageNum);
      visited := visited + 1;
      if stopOnEmpty && |items| == 0 {
        assert pageNum - 1 == last by { PageStep(load, budget, stopOnEmpty, pageNum); }
        CrawlDone(load, item, maxProducts, pageNum - 1, last);
        return;
      }
      assert pageNum <= last by { PageStep(load, budget, stopOnEmpty, pageNum); }
      results := AppendPage(results, items, item, maxProducts, RecordsOfPages(load, item, pageNum - 1));
      assert RecordsOfPages(load, item, pageNum) == RecordsOfPages(load, item, pageNum - 1) + Records(items, item);
      pageNum := pageNum + 1;
    }
    assert pageNum - 1 == last || |Seqs.Take(RecordsOfPages(load, item, pageNum - 1), maxProducts)| >= maxProducts;
    CrawlDone(load, item, maxProducts, pageNum - 1, last);
  }

  /** Whether page p of the budget is read: an empty page that stops the
      crawl is the end, any other page is among the pages read. */
  lemma PageStep<C>(load: nat -> seq<C>, budget: nat, stopOnEmpty: bool, p: nat)
    requires 1 <= p <= budget && p - 1 <= PagesToRead(load, budget, stopOnEmpty)
    ensures stopOnEmpty && |load(p)| == 0 ==> PagesToRead(load, budget, stopOnEmpty) == p - 1
    ensures !(stopOnEmpty && |load(p)| == 0) ==> p <= PagesToRead(load, budget, stopOnEmpty)
  {
    var last := PagesToRead(load, budget, stopOnEmpty);
    if stopOnEmpty && |load(p)| == 0 && p <= last {
      assert false;
    }
  }

  /** The crawl may stop early once it holds maxProducts rows: later pages
      do not change the first maxProducts rows. */
  lemma CrawlDone<C>(load: nat -> seq<C>, item: C -> Option<Scraped>, maxProducts: int, n: nat, last: nat)
    requires n <= last
    requires n == last || |Seqs.Take(RecordsOfPages(load, item, n), maxProducts)| >= maxProducts
    ensures Seqs.Take(RecordsOfPages(load, item, n), maxProducts) == Seqs.Take(RecordsOfPages(load, item, last), maxProducts)
  {
    RecordsOfPagesPrefix(load, item, n, last);
    if n < last {
      TakeOfExtension(RecordsOfPages(load, item, n), RecordsOfPages(load, item, last), maxProducts);
    }
  }

  /** Every row an item rule produces satisfies `P`. */
  ghost predicate Yields<C(!new)>(item: C -> Option<Scraped>, P: Scraped -> bool) {
    forall c :: item(c).Some? ==> P(item(c).value)
  }

  lemma {:induction false} RecordsSatisfy<C(!new)>(cards: seq<C>, item: C -> Option<Scraped>, P: Scraped -> bool)
    requires Yields(item, P)
    ensures forall k :: 0 <= k < |Records(cards, item)| ==> P(Records(cards, item)[k])
    decreases |cards|
  {
    if cards != [] {
      RecordsSatisfy(cards[..|cards| - 1], item, P);
    }
  }

  lemma {:induction false} PagesSatisfy<C(!new)>(load: nat -> seq<C>, item: C -> Option<Scraped>,
                                                P: Scraped -> bool, n: nat)
    requires Yields(item, P)
    ensures forall k :: 0 <= k < |RecordsOfPages(load, item, n)| ==> P(RecordsOfPages(load, item, n)[k])
    decreases n
  {
    if n > 0 {
      PagesSatisfy(load, item, P, n - 1);
      RecordsSatisfy(load(n), item, P);
    }
  }

  /** A crawl with a rule whose rows all satisfy `P` returns only such rows. */
  lemma CrawlSatisfies<C(!new)>(load: nat -> seq<C>, item: C -> Option<Scraped>, P: Scraped -> bool,
                                maxProducts: int, maxPages: int, stopOnEmpty: bool)
    requires Yields(item, P)
    ensures var rows := Crawled(load, item, maxProducts, maxPages, stopOnEmpty);
      forall k :: 0 <= k < |rows| ==> P(rows[k])
  {
    PagesSatisfy(load, item, P, PagesToRead(load, PageBudget(maxPages), stopOnEmpty));
  }

  /** `u` ends with the query parameter `param` set to `page` in decimal. */
  predicate EndsWithPage(u: string, param: string, page: nat) {
    var t := param + NatDigits(page);
    |t| <= |u| && u[|u| - |t|..] == t
  }

  /** `u` starts with `prefix` and has `q` right after it. */
  predicate QueryAt(u: string, prefix: string, q: string) {
    |prefix| + |q| <= |u| && u[..|prefix|] == prefix && u[|prefix|..|prefix| + |q|] == q
  }

  /** The search page URLs of the three stores: the keyword is the query,
      Amazon's with its spaces written as `+`, and the page number is the
      last parameter. */
  function AmazonSearchUrl(keyword: string, page: nat): (u: string)
    ensures QueryAt(u, AmazonBase + "/s?k=", ReplaceChar(keyword, ' ', '+'))
    ensures EndsWithPage(u, "&page=", page)
  {
    var prefix := AmazonBase + "/s?k=";
    var q := ReplaceChar(keyword, ' ', '+');
    var t := "&page=" + NatDigits(page);
    assert prefix + q + t == prefix + (q + t);
    prefix + q + t
  }

  function FlipkartSearchUrl(keyword: string, page: nat): (u: string)
    ensures QueryAt(u, FlipkartBase + "/search?q=", keyword)
    ensures EndsWithPage(u, "&page=", page)
  {
    var prefix := FlipkartBase + "/search?q=";
    var t := "&page=" + NatDigits(page);
    assert prefix + keyword + t == prefix + (keyword + t);
    prefix + keyword + t
  }

  function NykaaSearchUrl(keyword: string, page: nat): (u: string)
    ensures QueryAt(u, NykaaBase + "/search/result/?q=", keyword)
    ensures EndsWithPage(u, "&page_no=", page)
  {
    var prefix := NykaaBase + "/search/result/?q=";
    var t := "&page_no=" + NatDigits(page);
    assert prefix + keyword + t == prefix + (keyword + t);
    prefix + keyword + t
  }

  /** Amazon's query has no space left in it. */
  lemma AmazonQueryHasNoSpace(keyword: string, page: nat)
    ensures var prefix := AmazonBase + "/s?k=";
      forall i :: |prefix| <= i < |prefix| + |keyword| ==> AmazonSearchUrl(keyword, page)[i] != ' '
  {
    var prefix := AmazonBase + "/s?k=";
    var u := AmazonSearchUrl(keyword, page);
    assert u[|prefix|..|prefix| + |keyword|] == ReplaceChar(keyword, ' ', '+');
    forall i | |prefix| <= i < |prefix| + |keyword|
      ensures u[i] != ' '
    {
      assert u[i] == ReplaceChar(keyword, ' ', '+')[i - |prefix|];
    }
  }

  /** The cards on each search page of a store, as `fetch` returns them for the page's URL. */
  function SearchPages<C>(fetch: string -> seq<C>, url: (string, nat) -> string, keyword: string): nat -> seq<C> {
    (n: nat) => fetch(url(keyword, n))
  }

  function AmazonRule(lib: UrlLib): AmazonCard -> Option<Scraped> { c => AmazonItem(c, lib) }
  function FlipkartRule(lib: UrlLib): FlipkartCard -> Option<Scraped> { c => FlipkartItem(c, lib) }
  function NykaaRule(lib: UrlLib): NykaaCard -> Option<Scraped> { c => NykaaItem(c, lib) }

  predicate FromAmazon(r: Scraped) { r.site == "amazon" && r.title != [] }
  predicate FromFlipkart(r: Scraped) { r.site == "flipkart" && r.title != [] }
  predicate FromNykaa(r: Scraped) { r.site == "nykaa" }

  /** `scrape_amazon`: stops at the first search page without results. */
  method ScrapeAmazon(fetch: string -> seq<AmazonCard>, lib: UrlLib, keyword: string := "laptop",
                      maxProducts: int := 10, maxPages: int := 2)
    returns (results: seq<Scraped>)
    ensures results == Crawled(SearchPages(fetch, AmazonSearchUrl, keyword), AmazonRule(lib), maxProducts, maxPages, true)
    ensures forall k :: 0 <= k < |results| ==> FromAmazon(results[k])
  {
    var load := SearchPages(fetch, AmazonSearchUrl, keyword);
    var visited;
    results, visited := Crawl(load, AmazonRule(lib), maxProducts, maxPages, true);
    CrawlSatisfies(load, AmazonRule(lib), FromAmazon, maxProducts, maxPages, true);
  }

  /** `scrape_flipkart`: reads its whole page budget unless enough products are found. */
  method ScrapeFlipkart(fetch: string -> seq<FlipkartCard>, lib: UrlLib, keyword: string := "laptop",
                        maxProducts: int := 24, maxPages: int := 5)
    returns (results: seq<Scraped>)
    ensures results == Crawled(SearchPages(fetch, FlipkartSearchUrl, keyword), FlipkartRule(lib), maxProducts, maxPages, false)
    ensures forall k :: 0 <= k < |results| ==> FromFlipkart(results[k])
  {
    var load := SearchPages(fetch, FlipkartSearchUrl, keyword);
    var visited;
    results, visited := Crawl(load, FlipkartRule(lib), maxProducts, maxPages, false);
    CrawlSatisfies(load, FlipkartRule(lib), FromFlipkart, maxProducts, maxPages, false);
  }

  /** `scrape_nykaa`: reads its whole page budget unless enough products are found. */
  method ScrapeNykaa(fetch: string -> seq<NykaaCard>, lib: UrlLib, keyword: string := "lipstick",
                     maxProducts: int := 20, maxPages: int := 3)
    returns (results: seq<Scraped>)
    ensures results == Crawled(SearchPages(fetch, NykaaSearchUrl, keyword), NykaaRule(lib), maxProducts, maxPages, false)
    ensures forall k :: 0 <= k < |results| ==> FromNykaa(results[k])
  {
    var load := SearchPages(fetch, NykaaSearchUrl, keyword);
    var visited;
    results, visited := Crawl(load, NykaaRule(lib), maxProducts, maxPages, false);
    CrawlSatisfies(load, NykaaRule(lib), FromNykaa, maxProducts, maxPages, false);
  }

  /** Without the stop on an empty page every page of the budget is read. */
  lemma FullBudgetWithoutStop<C>(load: nat -> seq<C>, maxPages: nat)
    ensures PagesToRead(load, maxPages, false) == maxPages
  {
  }
}
