/** How the scrapers and the backend fit together: a record a store scraper
    appends passes through `normalize_row` with its store, title and discount,
    and a scraper's zero discount reaches the reply as an unknown discount,
    which the discount filter then drops. */
module Pipeline {
  import opened Wrappers
  import opened PyJson
  import Text
  import ScraperCards
  import Backend

  /** The store names the scrapers write are already lower case. */
  lemma StoreNamesAreLowerCase()
    ensures Text.Lower("amazon") == "amazon"
    ensures Text.Lower("flipkart") == "flipkart"
    ensures Text.Lower("nykaa") == "nykaa"
  {
  }

  /** A scraped record normalises to a deal with the same store and title; a
      zero discount becomes unknown and any other discount is kept. */
  lemma ScrapedRecordNormalizes(s: ScraperCards.Scraped)
    requires s.site != "" && Text.Lower(s.site) == s.site && s.title != ""
    ensures Backend.NormalizeRow(ScraperCards.ToRow(s)).Success?
    ensures Backend.NormalizeRow(ScraperCards.ToRow(s)).value.Some?
    ensures var d := Backend.NormalizeRow(ScraperCards.ToRow(s)).value.value;
      d.site == s.site && d.title == JStr(s.title)
      && (s.discountPercent == 0.0 ==> d.discountPercent.None?)
      && (s.discountPercent != 0.0 ==> d.discountPercent == Some(s.discountPercent))
  {
    var row := ScraperCards.ToRow(s);
    RowFields(s);
    Backend.NormalizedSiteAndTitle(row);
    if s.discountPercent == 0.0 {
      Backend.ZeroDiscountBecomesNone(row);
    } else {
      Backend.NumericDiscountKept(row, s.discountPercent);
    }
  }

  /** The keys of a scraped record that `normalize_row` reads first. */
  lemma RowFields(s: ScraperCards.Scraped)
    ensures var row := ScraperCards.ToRow(s);
      Get(row, "site") == JStr(s.site) && Get(row, "Title") == JStr(s.title)
      && Get(row, "DiscountPercent") == JNum(s.discountPercent)
      && "discount_percent" !in row && "discount" !in row
  {
  }

  /** An Amazon card that yields a record yields one that the backend
      normalises under the store name "amazon", with a known discount exactly
      when the badge gave one. */
  lemma AmazonRecordNormalizes(c: ScraperCards.AmazonCard, lib: ScraperCards.UrlLib)
    requires ScraperCards.AmazonItem(c, lib).Some?
    ensures var s := ScraperCards.AmazonItem(c, lib).value;
      var r := Backend.NormalizeRow(ScraperCards.ToRow(s));
      r.Success? && r.value.Some? && r.value.value.site == "amazon"
      && (r.value.value.discountPercent.Some? <==> s.discountSource == "scraped")
  {
    StoreNamesAreLowerCase();
    ScrapedRecordNormalizes(ScraperCards.AmazonItem(c, lib).value);
  }

  /** A record scraped with a zero discount never passes a discount filter. */
  lemma ZeroDiscountNeverPassesFilter(s: ScraperCards.Scraped, items: seq<Backend.Deal>, raw: Json)
    requires s.site != "" && Text.Lower(s.site) == s.site && s.title != ""
    requires s.discountPercent == 0.0 && Backend.DiscountThreshold(raw).Some?
    ensures Backend.NormalizeRow(ScraperCards.ToRow(s)).value.value !in Backend.ApplyDiscountFilter(items, raw)
  {
    ScrapedRecordNormalizes(s);
    Backend.UnknownDiscountFiltered(items, raw, Backend.NormalizeRow(ScraperCards.ToRow(s)).value.value);
  }
}
