# DealScope core, modelled in Dafny

DealScope compares deals across three Indian online stores. A Python backend
drives a browser over the search pages of Amazon, Flipkart and Nykaa. It turns
every product card into a row with a title, prices, a discount and links. A
Flask endpoint normalises the rows of the three stores into one deal shape and
merges them in store order. Stores that failed are reported on the side. An
optional maximum discount filters the merged list. Two more endpoints add and
delete price alerts.

The Next.js search page filters the deals by query, by a maximum-discount
selection and by the wishlist. It derives "top deals", "trending" and "most
viewed" lists. It keeps a wishlist, a search history and per-deal view counts.
The all-deals page lists the last stored results by discount, highest first.

The project is organised by the program's structure:

- `scraper_helpers.dfy` (`ScraperHelpers`): URL resolution, price parsing, the
  display price and the discount sanity check of `backend/scrapers.py`.
- `scraper_cards.dfy` (`ScraperCards`): what one product card of each store
  becomes.
- `scraper_pages.dfy` (`ScraperPages`): the page loops of the three scrapers,
  as imperative methods proved against a function of the pages read.
- `backend_app.dfy` (`Backend`): `normalize_row`, the merge loop, the discount
  filter and the scrape reply.
- `alert_registry.dfy` (`AlertRegistry`): subscribe and delete, as a class
  whose alert list the two methods update.
- `client_deals.dfy` (`ClientDeals`): the search page's price parser,
  wishlist, filter, ranked lists, history and view-count updates.
- `client_session.dfy` (`ClientSession`): the search page's state as a class
  whose handlers replace its fields.
- `deals_page.dfy` (`DealsPage`): the all-deals page's load and sort.
- `pipeline.dfy` (`Pipeline`): how a scraped record passes through the backend.
- Shared helpers: `wrappers.dfy`, `seqs.dfy`, `text.dfy`, `pyjson.dfy` (Python
  values and truthiness) and `sorting.dfy` (a stable descending sort).

The two JavaScript `parsePriceToNumber` copies are character for character the
same. They are modelled once, as `ClientDeals.ParsePriceToNumber`.

## Model

| member | source | states |
|---|---|---|
| ScraperHelpers.RoundHalfEven | backend/scrapers.py:346 | Python's `round`: the result is within one half of the input, and an exact tie goes to the even integer |
| ScraperHelpers.Round2 | backend/scrapers.py:67-68 | `round(x, 2)` is within 0.005 of x |
| ScraperHelpers.MakeAbsoluteUrl | backend/scrapers.py:18-27 | None exactly for an empty href; a stripped `//host` reference gets `https:` in front; a stripped URL with a scheme and a host is returned as it is |
| ScraperHelpers.NetworkPathResolvesOnce | backend/scrapers.py:18-27 | resolving the `https:` URL made from a `//host` reference again, against any base, changes nothing |
| ScraperHelpers.ParsePriceToNumber | backend/scrapers.py:30-38 | None for an empty price; otherwise `float` of the price's digits, dots and minus signs in their order, None when `float` would raise |
| ScraperHelpers.ParseGroupedPrice | backend/scrapers.py:30-38 | a whole amount written with thousands separators behind a currency prefix parses to that amount |
| ScraperHelpers.ParseGroupedDecimal | backend/scrapers.py:30-38 | a grouped amount with a decimal part parses to the decimal it writes |
| ScraperHelpers.PyFloatDecimal | backend/scrapers.py:34-35 | `float` of `digits.digits` is the decimal it writes |
| ScraperHelpers.PyFloat | backend/scrapers.py:35-38 | `float` of an empty text raises, so the price is None |
| ScraperHelpers.PyFloatOfDigits | backend/scrapers.py:34-35 | `float` of plain digits is the whole number they write |
| ScraperHelpers.ParsePriceExample | backend/scrapers.py:30-38 | "1,299.00" parses to 1299 |
| ScraperHelpers.PriceTokenAt | backend/scrapers.py:50 | the token at i has the shape `[\d,]+(\.\d+)?`, occurs at i, and cannot be extended |
| ScraperHelpers.NormalizeDisplayPrice | backend/scrapers.py:41-53 | "N/A" exactly when the text has no digit and no comma; otherwise the longest price token at the first digit or comma |
| ScraperHelpers.DisplayGroupedPrice | backend/scrapers.py:41-53 | an amount with thousands separators is displayed exactly as written |
| ScraperHelpers.DisplayOfRun | backend/scrapers.py:41-53 | a text made only of digits and commas is displayed whole |
| ScraperHelpers.RecomputedDiscount | backend/scrapers.py:62-68 | a recomputed discount exists exactly when both prices parse to non-zero numbers and the original is positive and above the price, and it is the rounded percentage saved |
| ScraperHelpers.SanitizeDiscount | backend/scrapers.py:56-88 | the result is None or between 0 and 95; an in-range discount is kept; any other result is the recomputed discount |
| ScraperHelpers.SanitizeIdempotent | backend/scrapers.py:56-88 | sanitising a sanitised discount changes nothing |
| Text.FirstDigitRun | backend/scrapers.py:218-220 | `re.search(r"(\d+)")`: None exactly when there is no digit; otherwise the maximal digit run at the first digit |
| Text.FirstDecimalNumber | backend/app.py:74-76 | `re.search(r"(\d+(\.\d+)?)")` read as a float: None exactly when there is no digit, otherwise at least the value of the first digit run |
| Text.FirstDigitRunOf | backend/scrapers.py:217-219 | in a text whose first digits are the run `ds`, the first digit is right after the digit-free prefix and the first run is `ds` |
| Text.FirstDecimalNumberDecimal | backend/app.py:74-76 | a first number written `ds.fr`, behind a digit-free prefix, reads as the decimal it writes |
| Text.FirstDecimalNumberWhole | backend/app.py:193-195 | a first digit run followed by neither a digit nor a dot and a digit reads as the whole number it writes |
| Text.StripAddsNoSubstring | backend/scrapers.py:326-330 | a substring of a stripped text, lower-cased or not, is a substring of the text itself |
| Text.NatDigits | backend/scrapers.py:347 | the decimal digits of n, with no leading zero, whose value is n |
| Text.GroupThousandsRoundTrip | backend/scrapers.py:347 | deleting the separators that `f"{n:,}"` inserts gives back the digits |
| PyJson.FirstTruthyIsFirst | backend/app.py:58-67 | a chain of `d.get(k) or ...` yields the first truthy value, or else the value of the last key |
| ScraperCards.FirstSrcsetUrl | backend/scrapers.py:184-185 | the URL of the first srcset candidate: the stripped first comma field up to its first space, so it has no space and no comma |
| ScraperCards.FirstImageAttr | backend/scrapers.py:179-187 | the Amazon attribute scan finds nothing exactly when no attribute has a non-empty value; otherwise it gives the first non-empty attribute, a srcset reduced to its first URL |
| ScraperCards.FirstNonEmptyImageAttr | backend/scrapers.py:445-455 | the Nykaa attribute scan gives the first attribute whose value yields a non-empty image, a srcset reduced to its first URL; when none does, the image is unchanged or empty |
| ScraperCards.ScansAgreeOnFilledValue | backend/scrapers.py:445-455 | where the Amazon scan finds a non-empty value, the Nykaa scan finds the same one |
| ScraperCards.AmazonImage | backend/scrapers.py:177-204 | the first non-empty attribute made absolute against the site, kept exactly when it is no placeholder; nothing without an attribute |
| ScraperCards.FillMissingPrice | backend/scrapers.py:226-229 | a price missing on one side is taken from the other, so both or neither are "N/A"; a present price is kept |
| ScraperCards.BadgeDiscount | backend/scrapers.py:214-220 | the badge discount is never negative, and 0 for a badge without a digit |
| ScraperCards.BadgeDiscountReads | backend/scrapers.py:214-220 | a badge whose first digits are the run `ds` reads as the number `ds` writes |
| ScraperCards.AmazonItem | backend/scrapers.py:165-242 | a card is skipped exactly when its stripped title is empty; a row has site "amazon", the stripped title, the badge discount, source "scraped" exactly for a non-zero discount, the display prices with a missing side filled from the other, the absolute url, present exactly when the card has an href, and the card's image |
| ScraperCards.TitleCandidates | backend/scrapers.py:326-330 | every stripped text that mentions no price, rating, discount or cart is a candidate, and every candidate is such a stripped text and mentions none of them |
| ScraperCards.StrippedCandidate | backend/scrapers.py:326-330 | stripping a text that mentions none of the excluded words keeps it a candidate |
| ScraperCards.LongestIndex | backend/scrapers.py:331 | `max(key=len)`: the first of the longest candidates |
| ScraperCards.FlipkartTitle | backend/scrapers.py:322-331 | None exactly without candidates; otherwise the first candidate that is at least as long as every other, as `max(key=len)` picks it |
| ScraperCards.BackComputedOriginal | backend/scrapers.py:346 | the recovered original is within half a unit of price*100/(100-d) |
| ScraperCards.DiscountRecoversPrice | backend/scrapers.py:343-347 | taking the badge's discount off the recovered original gives back the price, up to half a unit |
| ScraperCards.RecoveredOriginalAtLeastPrice | backend/scrapers.py:343-347 | for a positive price and a real discount the unrounded original is at least the price |
| ScraperCards.FlipkartUrl | backend/scrapers.py:352-362 | no url without an href; a path is joined to the site without its query; a link starting with `http` is kept as it is; any other link gives no url |
| ScraperCards.FlipkartImage | backend/scrapers.py:313-320 | a usable src is resolved against the site; a missing src or a `data:` one falls back to data-src, resolved the same way; a non-empty image comes from one of the two |
| ScraperCards.FlipkartDiscount | backend/scrapers.py:338-339 | the number the badge's one or two digits write, below 100, and 0 without a badge |
| ScraperCards.FlipkartOriginal | backend/scrapers.py:341-349 | no original price ("N/A") without a discount or without a readable non-zero price |
| ScraperCards.FlipkartItem | backend/scrapers.py:302-376 | a card is skipped exactly when it has no title or no price; a row has site "flipkart", the longest title, the display price, the badge's discount in [0, 100), source "scraped_badge" exactly for a non-zero discount, the original recovered from that discount, present only when discount and price are non-zero, and the card's url and image |
| ScraperCards.FlipkartOriginalShown | backend/scrapers.py:341-349 | a recovered original is shown as the grouped whole amount within half a unit of price*100/(100-d) |
| ScraperCards.NykaaImage | backend/scrapers.py:442-476 | the first listing attribute made absolute when that is non-empty; otherwise the product page's og:image made absolute when the page was visited and had one; otherwise no image |
| ScraperCards.NykaaBadge | backend/scrapers.py:491-493 | no badge gives no discount; a badge text with a number gives the number of its first digit run; one without a number makes the card fail |
| ScraperCards.NykaaOriginal | backend/scrapers.py:501-514 | an MRP that reads as a price is shown as its display price; without one, "N/A" unless a badge strictly between 0 and 95 and a readable price allow a recovery |
| ScraperCards.NykaaItem | backend/scrapers.py:430-530 | a card is dropped exactly when its badge has no number or it lacks a title or a price; a row has site "nykaa", the stripped title, the display price, the badge's number as discount (0 without a badge), source "scraped_badge" exactly with a badge, the original price from the MRP or that discount, the joined url exactly when there is an href, and the listing or og:image image |
| ScraperCards.NykaaOriginalRecovered | backend/scrapers.py:501-514 | when the MRP is missing or does not read as a price, a badge strictly between 0 and 95 and a positive price give the grouped recovered original |
| ScraperPages.Records | backend/scrapers.py:153-242 | a page yields at most one row per card |
| ScraperPages.PagesToRead | backend/scrapers.py:137-151 | at most the page budget; every page read has cards when the crawl stops on empty pages; fewer pages only when the next page is empty and the crawl stops on it |
| ScraperPages.RecordsOfPagesPrefix | backend/scrapers.py:137-248 | the rows of fewer pages are a prefix of the rows of more pages |
| ScraperPages.RecordsPrefix | backend/scrapers.py:153-155 | the rows of the first cards are a prefix of the page's rows |
| ScraperPages.AppendPage | backend/scrapers.py:153-155 | the card loop extends the results to the first maxProducts rows of the rows so far plus this page's |
| ScraperPages.Crawl | backend/scrapers.py:137-248 | the results are the first maxProducts rows of the pages read, and no more pages than the budget are loaded |
| ScraperPages.PageStep | backend/scrapers.py:137-151 | an empty page that stops the crawl ends the pages read; any other visited page is among them |
| ScraperPages.CrawlDone | backend/scrapers.py:137-155 | once maxProducts rows are held, later pages do not change the first maxProducts rows |
| ScraperPages.CrawlSatisfies | backend/scrapers.py:137-248 | when every row a card rule yields satisfies a property, every crawled row does |
| ScraperPages.AmazonSearchUrl | backend/scrapers.py:138 | the keyword, spaces written as `+`, right after `https://www.amazon.in/s?k=`, and the URL ends with `&page=` and the page number |
| ScraperPages.AmazonQueryHasNoSpace | backend/scrapers.py:138 | the query part of the Amazon search URL has no space |
| ScraperPages.FlipkartSearchUrl | backend/scrapers.py:285 | the keyword right after `https://www.flipkart.com/search?q=`, and the URL ends with `&page=` and the page number |
| ScraperPages.NykaaSearchUrl | backend/scrapers.py:413 | the keyword right after `https://www.nykaa.com/search/result/?q=`, and the URL ends with `&page_no=` and the page number |
| ScraperPages.ScrapeAmazon | backend/scrapers.py:119-256 | the first maxProducts rows of the pages read before the first empty page, each an Amazon row with a title |
| ScraperPages.ScrapeFlipkart | backend/scrapers.py:262-387 | the first maxProducts rows of the whole page budget, each a Flipkart row with a title |
| ScraperPages.ScrapeNykaa | backend/scrapers.py:393-551 | the first maxProducts rows of the whole page budget, each a Nykaa row |
| Backend.NormalizeRow | backend/app.py:46-92 | an empty row gives None; the row fails exactly when its site is a truthy non-string |
| Backend.NormalizedSiteAndTitle | backend/app.py:58-80 | the site is the lower-cased site or ""; the title is the first truthy of `Title` and `title`, or "" |
| Backend.DealOf | backend/app.py:58-92 | the deal carries the given site, and its title and prices are truthy values of the row or "" |
| Backend.DiscountNumber | backend/app.py:67-78 | no discount for null; a text discount is absent exactly when the text has no digit; a number or boolean always gives one |
| Backend.ZeroDiscountBecomesNone | backend/app.py:67-78 | a zero discount with no later alias becomes None, not 0 |
| Backend.NumericDiscountKept | backend/app.py:67-72 | a non-zero numeric discount is kept |
| Backend.TextDiscountParsed | backend/app.py:67-76 | a discount given as text is its first decimal number |
| Backend.WithSite | backend/app.py:180-181 | a deal with an empty site takes the store's name and nothing else changes |
| Backend.NormalizeAll | backend/app.py:177-182 | at most one deal per row |
| Backend.NormalizeAllSites | backend/app.py:177-182 | every deal of a store has a site: its own or the store's name |
| Backend.AppendSource | backend/app.py:177-182 | the row loop fails exactly when some row fails, and otherwise appends the store's deals in order |
| Backend.NormalizeAllFails | backend/app.py:177-182 | a store's rows fail exactly when one of them does |
| Backend.Paired | backend/app.py:172 | `zip` pairs at most the three store names and the outcomes |
| Backend.Merge | backend/app.py:168-182 | the merge loop computes the store-by-store merge of the paired outcomes |
| Backend.MergeUpTo | backend/app.py:168-182 | a merge over n stores records at most n errors |
| Backend.MergeOne | backend/app.py:172-182 | one store only appends deals and errors; a store that returned adds no error; a store that raised adds no deal and never fails |
| Backend.MergeStore | backend/app.py:172-182 | one pass records a raised store's error, or appends a store's deals, or fails when one of its rows raises |
| Backend.MergeRaised | backend/app.py:173-175 | a store that raised adds one error entry naming the store and keeps the deals |
| Backend.FailureStays | backend/app.py:168-182 | once a row has failed the merge stays failed |
| Backend.MergedSitesFilled | backend/app.py:177-182 | every merged deal names its store |
| Backend.OneErrorPerRaisedStore | backend/app.py:172-175 | one error entry per store that raised |
| Backend.RaisedLikeEmpty | backend/app.py:172-175 | a store that raised contributes the same deals as one that returned nothing |
| Backend.DiscountThreshold | backend/app.py:189-195 | no filter for None, "", 0, "0" or False; a threshold is non-negative; a string threshold is its first decimal number |
| Backend.ApplyDiscountFilter | backend/app.py:189-208 | the filter never adds deals, keeps everything without a threshold, and keeps only known discounts at most the threshold |
| Backend.DiscountFilterKeeps | backend/app.py:189-208 | the filter keeps the input's order, and a deal survives exactly when there is no threshold or its known discount is at most the threshold |
| Backend.UnknownDiscountFiltered | backend/app.py:197-202 | a deal without a discount never passes a filter |
| Backend.ScrapeReplyFor | backend/app.py:210-216 | `count_all` is the number of items returned |
| Backend.ApiScrape | backend/app.py:150-220 | the reply is the merge of the outcomes, filtered, or the 500 error when a row fails |
| Backend.AllStoresFailed | backend/app.py:168-216 | when all three stores raise, the reply succeeds with no deals and one error per store |
| AlertRegistry.NewAlert | backend/app.py:231-252 | no alert exactly without a contact; the alert has the given id and contact, `method` defaults to "Email", and the title falls back from the product's title to its name to the keyword |
| AlertRegistry.WithoutId | backend/app.py:289 | no alert left has the id, and the list does not grow |
| AlertRegistry.AlertStore.constructor | backend/app.py:101-103 | the store starts empty |
| AlertRegistry.AlertStore.Subscribe | backend/app.py:227-257 | without a contact: a 400 reply and the store unchanged; otherwise exactly the new alert is appended and returned |
| AlertRegistry.AlertStore.Delete | backend/app.py:281-294 | without an id: a 400 reply and the store unchanged; otherwise the alerts with other ids are kept and the reply counts the removed ones |
| AlertRegistry.DeletedCountsMatches | backend/app.py:289-290 | the count reported deleted is the number of alerts with that id |
| AlertRegistry.DeleteIdempotent | backend/app.py:289 | deleting an id a second time removes nothing |
| AlertRegistry.DeleteAbsentId | backend/app.py:289 | deleting an id no alert has removes nothing |
| AlertRegistry.DeleteKeepsOthers | backend/app.py:289 | deletion keeps the other alerts, in their order, and only them |
| AlertRegistry.SubscribeThenDelete | backend/app.py:242-289 | subscribing with a fresh id and deleting that id restores the list |
| ClientDeals.FirstNumberRun | app/page.jsx:18 | `s.match(/[\d.]+/)` is made of digits and dots |
| ClientDeals.ParseFloatRun | app/page.jsx:20-21 | `parseFloat` of the run: non-negative, the number written by an all-digit run, and NaN for an empty run or one that starts with a lone dot |
| ClientDeals.ParsePriceToNumber | app/page.jsx:15-22 | null for an empty text, and never negative |
| ClientDeals.ParseGroupedPrice | app/page.jsx:15-22 | a grouped whole amount behind a currency prefix reads as that amount |
| ClientDeals.ParseGroupedDecimal | app/page.jsx:15-22 | a grouped amount with a decimal part reads as the decimal it writes |
| ClientDeals.ParsersAgreeOnGroupedPrices | app/page.jsx:15-22 | the page and the backend read grouped prices, with or without decimals, as the same number |
| ClientDeals.LoneDotIsNoPrice | app/page.jsx:15-22 | a dot before the number, as in "Rs. 500", makes the price null |
| ClientDeals.Toggled | app/page.jsx:158-172 | no change without a url; a saved product's entries are removed; an unsaved product's slim copy is appended |
| ClientDeals.ToggleFlips | app/page.jsx:153-172 | toggling flips whether the product is saved and keeps every other url's state |
| ClientDeals.ToggleTwiceRestores | app/page.jsx:153-172 | two toggles restore every product's saved state |
| ClientDeals.SaveThenUnsave | app/page.jsx:158-172 | saving and then unsaving gives back the same wishlist |
| ClientDeals.RemoveFirstLength | app/page.jsx:337 | `replace("%", "")` deletes one `%` when there is one and nothing otherwise |
| ClientDeals.JsParseInt | app/page.jsx:337 | `parseInt` gives a number only when the text has a digit |
| ClientDeals.FilterProducts | app/page.jsx:316-350 | the three filters in a row amount to one filter by the conjunction of their tests |
| ClientDeals.FilterProductsSpec | app/page.jsx:316-350 | the result keeps the input's order, and a product is shown exactly when it passes the query, discount and saved tests |
| ClientDeals.UnreadableThresholdShowsNothing | app/page.jsx:336-343 | a discount selection whose number cannot be read empties the list |
| ClientDeals.PercentOptionThreshold | app/page.jsx:779-790 | the options "10%" ... "90%" read as the thresholds 10 ... 90 |
| ClientDeals.JsParseIntDigits | app/page.jsx:337 | `parseInt` of plain digits is the number they write |
| ClientDeals.TopDealsSpec | app/page.jsx:355-358 | at most six input products, none more often than in the input, each with a numeric discount, highest discount first; fewer than six only when all such products are in it |
| ClientDeals.TopDeals | app/page.jsx:355-358 | six products, or all products with a numeric discount when there are fewer |
| ClientDeals.TopDealsAreTop | app/page.jsx:355-358 | no product with a numeric discount left out beats a top deal |
| ClientDeals.Trending | app/page.jsx:365 | the first four top deals, or all of them when there are fewer |
| ClientDeals.TrendingAreTop | app/page.jsx:365 | at most four input products, none more often than in the input, in descending order of discount, and none left out beats one of them |
| ClientDeals.MostViewedSpec | app/page.jsx:360-363 | at most four viewed input products with a url, none more often than in the input, most views first, and none left out has more views than one in it |
| ClientDeals.MostViewed | app/page.jsx:360-363 | four products, or all viewed products when there are fewer |
| ClientDeals.UpdatedHistorySpec | app/page.jsx:296-301 | the keyword comes first, at most ten terms, no other term equals the keyword ignoring case, and the earlier terms keep their order |
| ClientDeals.UpdatedHistory | app/page.jsx:296-301 | the keyword and the other earlier terms, cut at ten |
| ClientDeals.UpdatedHistoryIdempotent | app/page.jsx:296-301 | a second search for the same keyword leaves the history as it is |
| ClientDeals.UpdatedHistoryNoDuplicates | app/page.jsx:296-301 | a history free of case-insensitive duplicates stays so |
| ClientDeals.CountedView | app/page.jsx:380-383 | the url's count goes up by one and no other count changes |
| ClientSession.Session.constructor | app/page.jsx:65-92 | an empty query, "Any" discount, saved-only off, and no products, wishlist, history or views |
| ClientSession.Session.SetQuery | app/page.jsx:656 | typing in the search box replaces the query and nothing else |
| ClientSession.Session.SetMinDisc | app/page.jsx:775 | choosing a discount option replaces the selection and nothing else |
| ClientSession.Session.ToggleSavedOnly | app/page.jsx:795 | the saved-only button flips the flag and nothing else |
| ClientSession.Session.ToggleSave | app/page.jsx:158-172 | only the wishlist changes, to its toggled value |
| ClientSession.Session.Search | app/page.jsx:255-301 | a blank query changes nothing; otherwise the items become the products and the history becomes the updated history for the trimmed query |
| ClientSession.Session.ViewDeal | app/page.jsx:378-385 | without a url nothing changes; otherwise only that url's view count goes up by one |
| StableSort.SortDescSorted | app/deals/page.jsx:25 | the sort's result is in descending order of the key |
| StableSort.SortDesc | app/deals/page.jsx:25 | the sort keeps the length of the list |
| StableSort.SortDescPermutes | app/deals/page.jsx:25 | the sort neither drops nor duplicates elements |
| StableSort.SortDescStable | app/deals/page.jsx:25 | elements with equal keys keep their order |
| StableSort.TakeSortedIsTop | app/page.jsx:355-358 | an element left out of the first k sorted elements has a key no larger than theirs |
| DealsPage.LoadedDealsSpec | app/deals/page.jsx:18-30 | nothing unless a list was stored; otherwise the stored products, each as often as stored, highest discount first, ties in stored order |
| DealsPage.LoadedDeals | app/deals/page.jsx:18-30 | as many products as were stored, none without a stored list |
| DealsPage.NoDiscountListedLast | app/deals/page.jsx:25 | every product with a positive discount is listed before every product without one |
| Pipeline.ScrapedRecordNormalizes | backend/app.py:46-92 | a scraped record keeps its store and title through `normalize_row`; a zero discount becomes unknown and any other is kept |
| Pipeline.AmazonRecordNormalizes | backend/scrapers.py:231-242 | an Amazon record reaches the backend under "amazon", with a known discount exactly when its source is "scraped" |
| Pipeline.ZeroDiscountNeverPassesFilter | backend/app.py:197-202 | a record scraped with a zero discount never passes a discount filter |

## Left out

- Browser automation, the network, scrolling, waiting, popups and `_navigate_with_retries` are not modelled. A store's search pages are an input function from URL to product cards.
- A card is the texts and attribute values the scraper reads from it. Flipkart's HTML is given as the texts the title pattern finds between tags, plus the first `₹` amount, the badge digits, the first href and the first image.
- Nykaa's product-page visit for the `og:image` fallback is an input: the `content` it finds, or "" when it is not reached.
- `urljoin` and `unquote` are parameters (`ScraperCards.UrlLib`), so a relative URL is resolved only as the caller's joiner does.
- ScraperHelpers.MakeAbsoluteUrl: `urlsplit` is modelled for ASCII input only. IPv6 hosts and the NFKC check on the network location are not modelled.
- Floating point is modelled as exact reals. There is no binary rounding, and JavaScript's `parseFloat` never reaches Infinity. A price text with a very long digit run therefore never becomes null.
- Lower-casing (`str.lower`, `toLowerCase`) folds ASCII letters only.
- Backend.DiscountThreshold: a number written by Python in exponent notation (`1e+20`) is read as its magnitude, not as the digits `str` would show.
- Backend.NormalizeRow: row values are scalars (null, booleans, numbers, strings). Lists and nested objects as values, and rows that are not dictionaries, are not modelled.
- Backend.ApiScrape: the scrapers' concurrent run is an input (each store's rows or exception message). The 500 reply that `int(max_products)` raises for a non-numeric value is not modelled.
- Reading and writing `alerts.json` is not modelled. The store is the alert list. `api_get_alerts` only returns it and is not modelled.
- `uuid4()` and `utcnow()` are parameters of `Subscribe`. The id is required to be fresh, which a UUID is in practice.
- The OPTIONS preflight routes, CORS and logging are not modelled.
- `_sanitize_discount` is modelled although none of the scrapers calls it.
- ScraperPages.ScrapeAmazon, ScraperPages.ScrapeFlipkart, ScraperPages.ScrapeNykaa: the number of pages loaded, which `Crawl` bounds, is not returned because the scrapers do not expose it.
- The search page's product fields are strings, with "" for a missing or null field. A non-string title, site or url is not modelled.
- On the all-deals page, list elements that are not objects are not modelled.
- `fetchLiveProducts` is not modelled. The items it returns are the input of `Search`.
- The price sparkline, `buildDummyHistory`, rendering, and the local-storage persistence and loading effects of the search page are not modelled.
- The search page declares no `sort` state. app/page.jsx:288 reads `sort`, which throws a ReferenceError inside a `try` whose `catch` ignores it, so `dealscope_last_sort` and `dealscope_last_savedOnly` are never written. The rest of the search runs. app/page.jsx:125 would throw the same way on calling `setSort`, but only when a sort was stored, which the page never does. Persistence is not modelled.
- Python's `\d`, `float()` and `int()` accept every Unicode decimal digit, while `Text.IsDigit` accepts ASCII digits only. A badge such as "३०% off" makes the modelled Nykaa card fail where the scraper reads 30, and such digits are likewise missed in prices, discounts and the discount filter.
- A JSON body that is not an object makes `payload.get` raise, and the routes answer 500 (backend/app.py:152-153, 229, 283-284). The model's payload is always an object.
- A truthy `product` that is not an object makes backend/app.py:248 raise, and `api_subscribe` answers 500. AlertRegistry.NewAlert takes the product as a row and cannot express it.
