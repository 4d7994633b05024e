/** The search page's pure pipelines: the price parser, the wishlist test and
    toggle, the result filter, the derived "top deals", "trending" and "most
    viewed" lists, and the history and view-count updates that the session
    applies. A product is one of the backend's items as the page reads it; a
    missing or null text field is the empty string. */
module ClientDeals {
  import opened Wrappers
  import Seqs
  import opened Text
  import StableSort
  import ScraperHelpers

  /** The fields of a result item that the page's logic reads. */
  datatype Product = Product(
    title: string,
    site: string,
    url: string,
    priceText: string,
    discountPercent: Option<real>)

  /** The slim copy of a product kept in the wishlist. */
  datatype SavedItem = SavedItem(
    title: string,
    url: string,
    priceText: string,
    discountPercent: Option<real>,
    site: string)

  // ---------------------------------------------------------------------
  // parsePriceToNumber
  // ---------------------------------------------------------------------

  predicate IsDigitOrDot(c: char) { IsDigit(c) || c == '.' }

  /** `s.match(/[\d.]+/)`: the first maximal run of digits and dots (empty
      when there is none). */
  function FirstNumberRun(s: string): (r: string)
    ensures forall i :: 0 <= i < |r| ==> IsDigitOrDot(r[i])
  {
    var i := IndexWhere(s, IsDigitOrDot);
    PrefixWhile(s[i..], IsDigitOrDot)
  }

  /** `parseFloat(t)` for a run of digits and dots: the value of its longest
      prefix of the form `digits[.digits]` or `.digits`; None (NaN) when
      there is no such prefix. */
  function ParseFloatRun(t: string): (r: Option<real>)
    requires forall i :: 0 <= i < |t| ==> IsDigitOrDot(t[i])
    ensures r.Some? ==> r.value >= 0.0
    ensures t != [] && AllDigits(t) ==> r == Some(DigitsValue(t) as real)
    ensures t == [] || (t[0] == '.' && (|t| == 1 || t[1] == '.')) ==> r.None?
  {
    var whole := PrefixWhile(t, IsDigit);
    assert AllDigits(t) ==> whole == t;
    var rest := t[|whole|..];
    var frac := if rest == [] then [] else PrefixWhile(rest[1..], IsDigit);
    if whole == [] && frac == [] then None else Some(DecimalValue(whole, frac))
  }

  /** `parsePriceToNumber(str)`: None for an empty text; otherwise the commas
      are deleted and the first run of digits and dots is read by `parseFloat`.
      Every value it yields is finite, so the `Number.isFinite` test never
      rejects one here. */
  function ParsePriceToNumber(str: string): (r: Option<real>)
    ensures r.Some? ==> r.value >= 0.0
    ensures str == [] ==> r.None?
  {
    if str == [] then None
    else ParseFloatRun(FirstNumberRun(RemoveCommas(str)))
  }

  lemma {:induction false} IndexWhereAfter(prefix: string, rest: string, p: char -> bool)
    requires forall i :: 0 <= i < |prefix| ==> !p(prefix[i])
    requires rest != [] && p(rest[0])
    ensures IndexWhere(prefix + rest, p) == |prefix|
  {
    if prefix != [] {
      assert (prefix + rest)[1..] == prefix[1..] + rest;
      IndexWhereAfter(prefix[1..], rest, p);
    }
  }

  lemma {:induction false} RunOfDigitsAndDots(t: string, u: string)
    requires forall i :: 0 <= i < |t| ==> IsDigitOrDot(t[i])
    requires u == [] || !IsDigitOrDot(u[0])
    ensures PrefixWhile(t + u, IsDigitOrDot) == t
  {
    if t != [] {
      assert (t + u)[1..] == t[1..] + u;
      RunOfDigitsAndDots(t[1..], u);
    } else {
      assert t + u == u;
    }
  }

  /** Behind a prefix without digits and dots, the first run is `t`, up to
      the first character `u` starts with. */
  lemma FirstNumberRunAfter(prefix: string, t: string, u: string)
    requires forall i :: 0 <= i < |prefix| ==> !IsDigitOrDot(prefix[i])
    requires t != [] && forall i :: 0 <= i < |t| ==> IsDigitOrDot(t[i])
    requires u == [] || !IsDigitOrDot(u[0])
    ensures FirstNumberRun(prefix + t + u) == t
  {
    assert prefix + t + u == prefix + (t + u);
    IndexWhereAfter(prefix, t + u, IsDigitOrDot);
    assert (prefix + (t + u))[|prefix|..] == t + u;
    RunOfDigitsAndDots(t, u);
  }

  /** Deleting the commas of a currency prefix, a grouped number and a tail
      without commas leaves the prefix, the digits and the tail. */
  lemma RemoveCommasGrouped(prefix: string, n: nat, tail: string)
    requires forall i :: 0 <= i < |prefix| ==> prefix[i] != ','
    requires forall i :: 0 <= i < |tail| ==> tail[i] != ','
    ensures RemoveCommas(prefix + WithCommas(n) + tail) == prefix + NatDigits(n) + tail
  {
    var ds := NatDigits(n);
    var g := GroupThousands(ds);
    assert WithCommas(n) == g;
    Seqs.FilterAppend(prefix + g, tail, IsNotComma);
    Seqs.FilterAppend(prefix, g, IsNotComma);
    KeepsCommaFree(prefix);
    KeepsCommaFree(tail);
    GroupThousandsRoundTrip(ds);
  }

  /** `parseFloat` of `digits.digits` is the decimal value it writes. */
  lemma ParseFloatDecimal(ds: string, frac: string)
    requires ds != [] && AllDigits(ds) && AllDigits(frac)
    ensures ParseFloatRun(ds + "." + frac) == Some(DecimalValue(ds, frac))
  {
    var t := ds + "." + frac;
    assert t == ds + ("." + frac);
    ScraperHelpers.DigitRunBeforeDot(ds, "." + frac);
    assert t[|ds|..] == "." + frac;
    assert ("." + frac)[1..] == frac;
    assert PrefixWhile(frac, IsDigit) == frac;
  }

  /** A price written with thousands separators behind a currency sign reads
      as the number it writes. */
  lemma ParseGroupedPrice(prefix: string, n: nat)
    requires forall i :: 0 <= i < |prefix| ==> !IsDigitOrDot(prefix[i]) && prefix[i] != ','
    ensures ParsePriceToNumber(prefix + WithCommas(n)) == Some(n as real)
  {
    var ds := NatDigits(n);
    RemoveCommasGrouped(prefix, n, "");
    assert prefix + WithCommas(n) + "" == prefix + WithCommas(n);
    assert prefix + ds + "" == prefix + ds;
    FirstNumberRunAfter(prefix, ds, "");
    assert prefix + WithCommas(n) != [] by { assert |WithCommas(n)| >= |ds|; }
  }

  /** A grouped price with a decimal part reads as the decimal it writes. */
  lemma ParseGroupedDecimal(prefix: string, n: nat, frac: string)
    requires forall i :: 0 <= i < |prefix| ==> !IsDigitOrDot(prefix[i]) && prefix[i] != ','
    requires AllDigits(frac)
    ensures ParsePriceToNumber(prefix + WithCommas(n) + "." + frac) == Some(DecimalValue(NatDigits(n), frac))
  {
    var x := prefix + WithCommas(n) + "." + frac;
    var t := NatDigits(n) + "." + frac;
    GroupedDecimalRun(prefix, n, frac);
    ParseFloatDecimal(NatDigits(n), frac);
    assert x != [] by { assert |x| >= |frac| + 1; }
  }

  /** The first run of digits and dots in a grouped decimal price, once its
      commas are deleted, is the number itself. */
  lemma GroupedDecimalRun(prefix: string, n: nat, frac: string)
    requires forall i :: 0 <= i < |prefix| ==> !IsDigitOrDot(prefix[i]) && prefix[i] != ','
    requires AllDigits(frac)
    ensures FirstNumberRun(RemoveCommas(prefix + WithCommas(n) + "." + frac)) == NatDigits(n) + "." + frac
  {
    var ds := NatDigits(n);
    var t := ds + "." + frac;
    GroupedDecimalCommas(prefix, n, frac);
    DecimalIsRun(ds, frac);
    FirstNumberRunAfter(prefix, t, "");
    assert prefix + t + "" == prefix + t;
  }

  lemma GroupedDecimalCommas(prefix: string, n: nat, frac: string)
    requires forall i :: 0 <= i < |prefix| ==> prefix[i] != ','
    requires AllDigits(frac)
    ensures RemoveCommas(prefix + WithCommas(n) + "." + frac) == prefix + (NatDigits(n) + "." + frac)
  {
    var ds := NatDigits(n);
    var tail := "." + frac;
    assert forall i :: 0 <= i < |tail| ==> tail[i] != ',' by {
      forall i | 0 <= i < |tail| ensures tail[i] != ',' {
        if i > 0 { assert tail[i] == frac[i - 1]; }
      }
    }
    assert prefix + WithCommas(n) + "." + frac == prefix + WithCommas(n) + tail;
    RemoveCommasGrouped(prefix, n, tail);
    assert prefix + ds + tail == prefix + (ds + "." + frac);
  }

  /** `digits.digits` is a run of digits and dots. */
  lemma DecimalIsRun(ds: string, frac: string)
    requires AllDigits(ds) && AllDigits(frac)
    ensures forall i :: 0 <= i < |ds + "." + frac| ==> IsDigitOrDot((ds + "." + frac)[i])
  {
  }

  /** The search page and the backend read grouped prices, with or without a
      decimal part, as the same number. */
  lemma ParsersAgreeOnGroupedPrices(prefix: string, n: nat, frac: string)
    requires forall i :: 0 <= i < |prefix| ==> !ScraperHelpers.IsNumberChar(prefix[i]) && prefix[i] != ','
    requires AllDigits(frac)
    ensures ParsePriceToNumber(prefix + WithCommas(n)) == ScraperHelpers.ParsePriceToNumber(prefix + WithCommas(n))
    ensures ParsePriceToNumber(prefix + WithCommas(n) + "." + frac)
            == ScraperHelpers.ParsePriceToNumber(prefix + WithCommas(n) + "." + frac)
  {
    ParseGroupedPrice(prefix, n);
    ScraperHelpers.ParseGroupedPrice(prefix, n);
    ParseGroupedDecimal(prefix, n, frac);
    ScraperHelpers.ParseGroupedDecimal(prefix, n, frac);
  }

  /** A dot that is not part of a number ("Rs. 500") comes first in the text,
      so `parseFloat` reads only that dot and the price is null. */
  lemma LoneDotIsNoPrice(prefix: string, rest: string)
    requires forall i :: 0 <= i < |prefix| ==> !IsDigitOrDot(prefix[i]) && prefix[i] != ','
    requires rest != [] && !IsDigitOrDot(rest[0]) && rest[0] != ','
    ensures ParsePriceToNumber(prefix + "." + rest) == None
  {
    var rr := RemoveCommas(rest);
    assert RemoveCommas(prefix + "." + rest) == prefix + "." + rr by {
      Seqs.FilterAppend(prefix + ".", rest, IsNotComma);
      Seqs.FilterAppend(prefix, ".", IsNotComma);
      KeepsCommaFree(prefix);
    }
    assert FirstNumberRun(prefix + "." + rr) == "." by {
      assert rr == [rest[0]] + RemoveCommas(rest[1..]);
      FirstNumberRunAfter(prefix, ".", rr);
    }
    assert ParseFloatRun(".") == None;
  }

  // ---------------------------------------------------------------------
  // isSaved / toggleSave
  // ---------------------------------------------------------------------

  /** `isSaved(p)`: the product has a url and some wishlist entry has the same url. */
  predicate IsSaved(wishlist: seq<SavedItem>, p: Product) {
    p.url != "" && exists w :: w in wishlist && w.url == p.url
  }

  function Slim(p: Product): SavedItem {
    SavedItem(p.title, p.url, p.priceText, p.discountPercent, p.site)
  }

  function UrlIsNot(url: string): SavedItem -> bool { (w: SavedItem) => w.url != url }

  /** The wishlist after `toggleSave(p)`: unchanged without a url; otherwise
      the entries with the product's url are removed when there are any, and
      its slim copy is appended when there are none. */
  function Toggled(wishlist: seq<SavedItem>, p: Product): (r: seq<SavedItem>)
    ensures p.url == "" ==> r == wishlist
    ensures IsSaved(wishlist, p) ==> |r| < |wishlist|
    ensures p.url != "" && !IsSaved(wishlist, p) ==> |r| == |wishlist| + 1 && r[|wishlist|].url == p.url
  {
    if p.url == "" then wishlist
    else if exists w :: w in wishlist && w.url == p.url then
      var w :| w in wishlist && w.url == p.url;
      Seqs.FilterDropsFailing(wishlist, UrlIsNot(p.url), w);
      Seqs.Filter(wishlist, UrlIsNot(p.url))
    else wishlist + [Slim(p)]
  }

  /** Toggling a product with a url flips whether it is saved; products with
      another url keep their state. */
  lemma ToggleFlips(wishlist: seq<SavedItem>, p: Product, q: Product)
    ensures p.url != "" ==> (IsSaved(Toggled(wishlist, p), p) <==> !IsSaved(wishlist, p))
    ensures q.url != p.url ==> (IsSaved(Toggled(wishlist, p), q) <==> IsSaved(wishlist, q))
  {
    if p.url != "" && IsSaved(wishlist, p) {
      var r := Toggled(wishlist, p);
      if q.url != p.url && IsSaved(wishlist, q) {
        var w :| w in wishlist && w.url == q.url;
        Seqs.FilterMembership(wishlist, UrlIsNot(p.url), w);
      }
      if IsSaved(r, q) {
        var w :| w in r && w.url == q.url;
        Seqs.FilterMembership(wishlist, UrlIsNot(p.url), w);
      }
    } else if p.url != "" {
      assert Slim(p) in Toggled(wishlist, p);
    }
  }

  /** Two toggles of the same product restore every product's saved state. */
  lemma ToggleTwiceRestores(wishlist: seq<SavedItem>, p: Product, q: Product)
    ensures IsSaved(Toggled(Toggled(wishlist, p), p), q) <==> IsSaved(wishlist, q)
  {
    var once := Toggled(wishlist, p);
    ToggleFlips(wishlist, p, q);
    ToggleFlips(once, p, q);
    if q.url == p.url && p.url != "" {
      ToggleFlips(wishlist, p, p);
      ToggleFlips(once, p, p);
      assert IsSaved(wishlist, q) == IsSaved(wishlist, p);
      assert IsSaved(once, q) == IsSaved(once, p);
      assert IsSaved(Toggled(once, p), q) == IsSaved(Toggled(once, p), p);
    }
  }

  /** Saving an unsaved product and toggling it again gives back the very same list. */
  lemma SaveThenUnsave(wishlist: seq<SavedItem>, p: Product)
    requires p.url != "" && !IsSaved(wishlist, p)
    ensures Toggled(Toggled(wishlist, p), p) == wishlist
  {
    assert Slim(p) in wishlist + [Slim(p)];
    Seqs.FilterAppend(wishlist, [Slim(p)], UrlIsNot(p.url));
    Seqs.FilterKeepsAll(wishlist, UrlIsNot(p.url));
    assert Seqs.Filter([Slim(p)], UrlIsNot(p.url)) == [];
  }

  // ---------------------------------------------------------------------
  // filter_products
  // ---------------------------------------------------------------------

  /** The query test: flipkart and nykaa items always pass, others when their
      lower-cased title contains the lower-cased query; an empty query passes all. */
  predicate QueryKeeps(query: string, p: Product) {
    query == "" || Lower(p.site) == "flipkart" || Lower(p.site) == "nykaa"
    || Contains(Lower(p.title), Lower(query))
  }

  /** JavaScript's `s.replace(c, "")` with a one-character pattern: only the
      first occurrence is deleted. */
  function RemoveFirst(s: string, c: char): string
  {
    if s == [] then [] else if s[0] == c then s[1..] else [s[0]] + RemoveFirst(s[1..], c)
  }

  /** Exactly one character is deleted when `c` occurs, none otherwise. */
  lemma {:induction false} RemoveFirstLength(s: string, c: char)
    ensures c !in s ==> RemoveFirst(s, c) == s
    ensures c in s ==> |RemoveFirst(s, c)| == |s| - 1
  {
    if s != [] && s[0] != c {
      RemoveFirstLength(s[1..], c);
      assert c in s <==> c in s[1..] by {
        assert s == [s[0]] + s[1..];
      }
    }
  }

  /** `parseInt(s, 10)`: leading white space, an optional sign and the
      longest run of digits; None (NaN) when there are no digits. */
  function JsParseInt(s: string): (r: Option<int>)
    ensures r.Some? ==> exists i :: 0 <= i < |s| && IsDigit(s[i])
  {
    var t := LStrip(s, IsJsSpace);
    var signed := t != [] && (t[0] == '-' || t[0] == '+');
    var body := if signed then t[1..] else t;
    var ds := PrefixWhile(body, IsDigit);
    if ds == [] then None
    else
      assert s[|s| - |t| + (if signed then 1 else 0)] == ds[0];
      Some(if signed && t[0] == '-' then -(DigitsValue(ds) as int) else DigitsValue(ds))
  }

  /** The discount filter is on unless the selection is empty or "Any". */
  predicate DiscountFilterOn(minDisc: string) { minDisc != "" && minDisc != "Any" }

  /** `parseInt(min_disc.replace("%", ""), 10)`. */
  function MinDiscThreshold(minDisc: string): Option<int> {
    JsParseInt(RemoveFirst(minDisc, '%'))
  }

  /** The discount test: with the filter on, only a numeric discount at most
      the threshold passes (a NaN threshold passes nothing). */
  predicate DiscountKeeps(minDisc: string, p: Product) {
    !DiscountFilterOn(minDisc)
    || (MinDiscThreshold(minDisc).Some? && p.discountPercent.Some?
        && p.discountPercent.value <= MinDiscThreshold(minDisc).value as real)
  }

  predicate SavedKeeps(onlySaved: bool, wishlist: seq<SavedItem>, p: Product) {
    !onlySaved || IsSaved(wishlist, p)
  }

  function QueryRule(query: string): Product -> bool { (p: Product) => QueryKeeps(query, p) }
  function DiscountRule(minDisc: string): Product -> bool { (p: Product) => DiscountKeeps(minDisc, p) }
  function SavedRule(onlySaved: bool, wishlist: seq<SavedItem>): Product -> bool {
    (p: Product) => SavedKeeps(onlySaved, wishlist, p)
  }

  /** `filter_products(data, query, _, min_disc, onlySaved)`: the three filters in turn. */
  function FilterProducts(data: seq<Product>, query: string, minDisc: string, onlySaved: bool,
                          wishlist: seq<SavedItem>): (r: seq<Product>)
    ensures r == Seqs.Filter(data, ShownRule(query, minDisc, onlySaved, wishlist))
  {
    var byQuery := if query != "" then Seqs.Filter(data, QueryRule(query)) else data;
    var byDiscount := if DiscountFilterOn(minDisc) then Seqs.Filter(byQuery, DiscountRule(minDisc)) else byQuery;
    var r := if onlySaved then Seqs.Filter(byDiscount, SavedRule(onlySaved, wishlist)) else byDiscount;
    assert r == Seqs.Filter(data, ShownRule(query, minDisc, onlySaved, wishlist)) by {
      if query == "" { Seqs.FilterKeepsAll(data, QueryRule(query)); }
      assert byQuery == Seqs.Filter(data, QueryRule(query));
      if !DiscountFilterOn(minDisc) { Seqs.FilterKeepsAll(byQuery, DiscountRule(minDisc)); }
      assert byDiscount == Seqs.Filter(byQuery, DiscountRule(minDisc));
      if !onlySaved { Seqs.FilterKeepsAll(byDiscount, SavedRule(onlySaved, wishlist)); }
      var both := (p: Product) => QueryKeeps(query, p) && DiscountKeeps(minDisc, p);
      Seqs.FilterFilterAs(data, QueryRule(query), DiscountRule(minDisc), both);
      Seqs.FilterFilterAs(data, both, SavedRule(onlySaved, wishlist), ShownRule(query, minDisc, onlySaved, wishlist));
    }
    r
  }

  /** The single test the three filters amount to. */
  predicate Shown(query: string, minDisc: string, onlySaved: bool, wishlist: seq<SavedItem>, p: Product) {
    QueryKeeps(query, p) && DiscountKeeps(minDisc, p) && SavedKeeps(onlySaved, wishlist, p)
  }

  function ShownRule(query: string, minDisc: string, onlySaved: bool, wishlist: seq<SavedItem>): Product -> bool {
    (p: Product) => Shown(query, minDisc, onlySaved, wishlist, p)
  }

  /** The filtered list keeps the input's order, and a product is shown
      exactly when it is in the input and passes all three tests. */
  lemma FilterProductsSpec(data: seq<Product>, query: string, minDisc: string, onlySaved: bool,
                           wishlist: seq<SavedItem>, p: Product)
    ensures Seqs.IsSubsequence(FilterProducts(data, query, minDisc, onlySaved, wishlist), data)
    ensures p in FilterProducts(data, query, minDisc, onlySaved, wishlist)
            <==> p in data && Shown(query, minDisc, onlySaved, wishlist, p)
  {
    Seqs.FilterIsSubsequence(data, ShownRule(query, minDisc, onlySaved, wishlist));
    Seqs.FilterMembership(data, ShownRule(query, minDisc, onlySaved, wishlist), p);
  }

  /** With no query, no discount selection and saved-only off, every product is shown. */
  lemma NoFilterShowsAll(data: seq<Product>, wishlist: seq<SavedItem>)
    ensures FilterProducts(data, "", "Any", false, wishlist) == data
  {
  }

  /** A selection whose number cannot be read empties the list. */
  lemma UnreadableThresholdShowsNothing(data: seq<Product>, query: string, minDisc: string, onlySaved: bool,
                                        wishlist: seq<SavedItem>)
    requires DiscountFilterOn(minDisc) && MinDiscThreshold(minDisc).None?
    ensures FilterProducts(data, query, minDisc, onlySaved, wishlist) == []
  {
    Seqs.FilterKeepsNone(data, ShownRule(query, minDisc, onlySaved, wishlist));
  }

  /** The selections "10%" ... "90%" read as the thresholds 10 ... 90. */
  lemma PercentOptionThreshold(n: nat)
    ensures MinDiscThreshold(NatDigits(n) + "%") == Some(n)
  {
    var ds := NatDigits(n);
    RemoveFirstAfter(ds, '%', "");
    assert ds + "%" == ds + ['%'] + "";
    assert ds + "" == ds;
    JsParseIntDigits(ds);
  }

  /** `parseInt` of plain digits is the number they write. */
  lemma JsParseIntDigits(ds: string)
    requires ds != [] && AllDigits(ds)
    ensures JsParseInt(ds) == Some(DigitsValue(ds))
  {
    assert LStrip(ds, IsJsSpace) == ds;
    assert PrefixWhile(ds, IsDigit) == ds;
  }

  lemma {:induction false} RemoveFirstAfter(a: string, c: char, b: string)
    requires c !in a
    ensures RemoveFirst(a + [c] + b, c) == a + b
  {
    var s := a + [c] + b;
    if a == [] {
      assert s == [c] + b;
      assert RemoveFirst(s, c) == s[1..];
    } else {
      assert s[0] == a[0] && s[0] != c;
      assert s[1..] == a[1..] + [c] + b;
      RemoveFirstAfter(a[1..], c, b);
      assert RemoveFirst(s, c) == [a[0]] + RemoveFirst(s[1..], c);
      assert a == [a[0]] + a[1..];
    }
  }

  // ---------------------------------------------------------------------
  // topDeals / trendingDeals / mostViewed
  // ---------------------------------------------------------------------

  /** `discount_percent || 0`. */
  function DiscountKey(p: Product): real { p.discountPercent.GetOr(0.0) }

  predicate HasNumericDiscount(p: Product) { p.discountPercent.Some? }

  /** `topDeals`: the products with a numeric discount, highest first, at most six. */
  function TopDeals(products: seq<Product>): (r: seq<Product>)
    ensures var n := |Seqs.Filter(products, HasNumericDiscount)|;
      |r| == if n < 6 then n else 6
  {
    Seqs.Take(StableSort.SortDesc(Seqs.Filter(products, HasNumericDiscount), DiscountKey), 6)
  }

  /** `trendingDeals`: the first four top deals. */
  function Trending(products: seq<Product>): (r: seq<Product>)
    ensures |r| == if |TopDeals(products)| < 4 then |TopDeals(products)| else 4
    ensures r == TopDeals(products)[..|r|]
  {
    Seqs.Take(TopDeals(products), 4)
  }

  /** The top deals are at most six products of the input, each with a
      numeric discount and none more often than in the input, in descending
      order of discount; fewer than six only when every product with a
      numeric discount is among them. */
  lemma TopDealsSpec(products: seq<Product>)
    ensures |TopDeals(products)| <= 6
    ensures multiset(TopDeals(products)) <= multiset(products)
    ensures forall i :: 0 <= i < |TopDeals(products)| ==>
              TopDeals(products)[i] in products && HasNumericDiscount(TopDeals(products)[i])
    ensures StableSort.SortedDesc(TopDeals(products), DiscountKey)
    ensures |TopDeals(products)| < 6 ==>
              forall q :: q in products && HasNumericDiscount(q) ==> q in TopDeals(products)
  {
    var numeric := Seqs.Filter(products, HasNumericDiscount);
    var sorted := StableSort.SortDesc(numeric, DiscountKey);
    TakeSortedFilter(products, HasNumericDiscount, DiscountKey, 6);
  }

  /** The facts shared by the ranked lists: the first `k` of a filtered,
      sorted input. */
  lemma TakeSortedFilter(s: seq<Product>, keep: Product -> bool, key: Product -> real, k: nat)
    ensures var r := Seqs.Take(StableSort.SortDesc(Seqs.Filter(s, keep), key), k);
      |r| <= k
      && (forall i :: 0 <= i < |r| ==> r[i] in s && keep(r[i]))
      && StableSort.SortedDesc(r, key)
      && (|r| < k ==> forall q :: q in s && keep(q) ==> q in r)
      && multiset(r) <= multiset(s)
  {
    var f := Seqs.Filter(s, keep);
    var sorted := StableSort.SortDesc(f, key);
    var r := Seqs.Take(sorted, k);
    StableSort.SortDescPermutes(f, key);
    StableSort.SortDescSorted(f, key);
    Seqs.FilterMultiset(s, keep);
    if 0 < k < |sorted| {
      assert sorted == r + sorted[k..];
    }
    forall i | 0 <= i < |r| ensures r[i] in s && keep(r[i]) {
      assert r[i] == sorted[i];
      assert sorted[i] in multiset(f);
      Seqs.FilterMembership(s, keep, r[i]);
    }
    if |r| < k {
      assert r == sorted;
      forall q | q in s && keep(q) ensures q in r {
        Seqs.FilterMembership(s, keep, q);
        assert q in multiset(sorted);
      }
    }
  }

  /** A product with a numeric discount that is not a top deal has a
      discount no larger than any top deal's. */
  lemma TopDealsAreTop(products: seq<Product>, q: Product)
    requires q in products && HasNumericDiscount(q) && q !in TopDeals(products)
    ensures forall i :: 0 <= i < |TopDeals(products)| ==> DiscountKey(TopDeals(products)[i]) >= DiscountKey(q)
  {
    Seqs.FilterMembership(products, HasNumericDiscount, q);
    StableSort.TakeSortedIsTop(Seqs.Filter(products, HasNumericDiscount), DiscountKey, 6, q);
  }

  /** The trending deals are the four best: at most four, none more often
      than in the input, in descending order
      of discount, and no product with a numeric discount left out of them
      beats one of them. */
  lemma TrendingAreTop(products: seq<Product>, q: Product)
    ensures |Trending(products)| <= 4
    ensures multiset(Trending(products)) <= multiset(products)
    ensures StableSort.SortedDesc(Trending(products), DiscountKey)
    ensures q in products && HasNumericDiscount(q) && q !in Trending(products) ==>
              forall i :: 0 <= i < |Trending(products)| ==> DiscountKey(Trending(products)[i]) >= DiscountKey(q)
  {
    var sorted := StableSort.SortDesc(Seqs.Filter(products, HasNumericDiscount), DiscountKey);
    assert Trending(products) == Seqs.Take(sorted, 4);
    TakeSortedFilter(products, HasNumericDiscount, DiscountKey, 4);
    if q in products && HasNumericDiscount(q) && q !in Trending(products) {
      Seqs.FilterMembership(products, HasNumericDiscount, q);
      StableSort.TakeSortedIsTop(Seqs.Filter(products, HasNumericDiscount), DiscountKey, 4, q);
    }
  }

  /** `viewCounts[url] || 0`. */
  function ViewCount(counts: map<string, nat>, url: string): nat {
    if url in counts then counts[url] else 0
  }

  function WasViewed(counts: map<string, nat>): Product -> bool {
    (p: Product) => p.url != "" && ViewCount(counts, p.url) != 0
  }

  function ViewKey(counts: map<string, nat>): Product -> real {
    (p: Product) => ViewCount(counts, p.url) as real
  }

  /** `mostViewed`: the viewed products with a url, most views first, at most four. */
  function MostViewed(products: seq<Product>, counts: map<string, nat>): (r: seq<Product>)
    ensures var n := |Seqs.Filter(products, WasViewed(counts))|;
      |r| == if n < 4 then n else 4
  {
    Seqs.Take(StableSort.SortDesc(Seqs.Filter(products, WasViewed(counts)), ViewKey(counts)), 4)
  }

  /** The most-viewed list holds at most four products of the input, none
      more often than in the input, each with
      a url and a non-zero count, in descending order of views, and no viewed
      product left out of it has more views than one in it. */
  lemma MostViewedSpec(products: seq<Product>, counts: map<string, nat>, q: Product)
    ensures |MostViewed(products, counts)| <= 4
    ensures multiset(MostViewed(products, counts)) <= multiset(products)
    ensures forall i :: 0 <= i < |MostViewed(products, counts)| ==>
              var p := MostViewed(products, counts)[i];
              p in products && p.url != "" && ViewCount(counts, p.url) != 0
    ensures StableSort.SortedDesc(MostViewed(products, counts), ViewKey(counts))
    ensures q in products && q.url != "" && ViewCount(counts, q.url) != 0 && q !in MostViewed(products, counts) ==>
              forall i :: 0 <= i < |MostViewed(products, counts)| ==>
                ViewCount(counts, MostViewed(products, counts)[i].url) >= ViewCount(counts, q.url)
  {
    var r := MostViewed(products, counts);
    TakeSortedFilter(products, WasViewed(counts), ViewKey(counts), 4);
    if q in products && q.url != "" && ViewCount(counts, q.url) != 0 && q !in r {
      Seqs.FilterMembership(products, WasViewed(counts), q);
      StableSort.TakeSortedIsTop(Seqs.Filter(products, WasViewed(counts)), ViewKey(counts), 4, q);
      forall i | 0 <= i < |r| ensures ViewCount(counts, r[i].url) >= ViewCount(counts, q.url) {
        assert ViewKey(counts)(r[i]) >= ViewKey(counts)(q);
      }
    }
  }

  // ---------------------------------------------------------------------
  // Session updates: the search history and the view count
  // ---------------------------------------------------------------------

  function OtherTerm(keyword: string): string -> bool {
    (t: string) => Lower(t) != Lower(keyword)
  }

  /** The history after a search for `keyword`: the keyword first, then the
      earlier terms that differ from it ignoring case, at most ten in all. */
  function UpdatedHistory(prev: seq<string>, keyword: string): (r: seq<string>)
    ensures var n := 1 + |Seqs.Filter(prev, OtherTerm(keyword))|;
      |r| == if n < 10 then n else 10
  {
    Seqs.Take([keyword] + Seqs.Filter(prev, OtherTerm(keyword)), 10)
  }

  /** The history starts with the keyword, holds at most ten terms, has no
      other term equal to the keyword up to case, and keeps the earlier terms
      in their order. */
  lemma UpdatedHistorySpec(prev: seq<string>, keyword: string)
    ensures var r := UpdatedHistory(prev, keyword);
      1 <= |r| <= 10 && r[0] == keyword
      && (forall i :: 1 <= i < |r| ==> Lower(r[i]) != Lower(keyword))
      && Seqs.IsSubsequence(r[1..], prev)
  {
    var f := Seqs.Filter(prev, OtherTerm(keyword));
    var r := UpdatedHistory(prev, keyword);
    assert r[1..] == Seqs.Take(f, 9);
    forall i | 1 <= i < |r| ensures Lower(r[i]) != Lower(keyword) {
      assert r[i] == f[i - 1];
    }
    Seqs.TakeFilterIsSubsequence(prev, OtherTerm(keyword), 9);
  }

  /** Searching for the same keyword twice in a row leaves the history as
      after the first search. */
  lemma UpdatedHistoryIdempotent(prev: seq<string>, keyword: string)
    ensures UpdatedHistory(UpdatedHistory(prev, keyword), keyword) == UpdatedHistory(prev, keyword)
  {
    var f := Seqs.Filter(prev, OtherTerm(keyword));
    var t := Seqs.Take(f, 9);
    assert UpdatedHistory(prev, keyword) == [keyword] + t by {
      assert Seqs.Take([keyword] + f, 10) == [keyword] + t;
    }
    assert forall i :: 0 <= i < |t| ==> OtherTerm(keyword)(t[i]) by {
      forall i | 0 <= i < |t| ensures OtherTerm(keyword)(t[i]) {
        assert t[i] == f[i];
      }
    }
    Seqs.FilterKeepsAll(t, OtherTerm(keyword));
    Seqs.FilterAppend([keyword], t, OtherTerm(keyword));
    assert Seqs.Filter([keyword], OtherTerm(keyword)) == [];
    assert Seqs.Filter([keyword] + t, OtherTerm(keyword)) == t;
  }

  /** No two terms are equal up to case. */
  predicate NoCaseDuplicates(s: seq<string>) {
    forall i, j :: 0 <= i < j < |s| ==> Lower(s[i]) != Lower(s[j])
  }

  lemma {:induction false} FilterNoCaseDuplicates(s: seq<string>, keep: string -> bool)
    requires NoCaseDuplicates(s)
    ensures NoCaseDuplicates(Seqs.Filter(s, keep))
  {
    if s != [] {
      var tail := Seqs.Filter(s[1..], keep);
      FilterNoCaseDuplicates(s[1..], keep);
      if keep(s[0]) {
        var r := [s[0]] + tail;
        forall j | 0 < j < |r| ensures Lower(r[0]) != Lower(r[j]) {
          Seqs.FilterMembership(s[1..], keep, r[j]);
          var m :| 0 <= m < |s[1..]| && s[1..][m] == r[j];
          assert s[m + 1] == r[j];
        }
        assert Seqs.Filter(s, keep) == r;
      }
    }
  }

  /** A history free of case-insensitive duplicates stays so after a search. */
  lemma UpdatedHistoryNoDuplicates(prev: seq<string>, keyword: string)
    ensures NoCaseDuplicates(prev) ==> NoCaseDuplicates(UpdatedHistory(prev, keyword))
  {
    if NoCaseDuplicates(prev) {
      var f := Seqs.Filter(prev, OtherTerm(keyword));
      FilterNoCaseDuplicates(prev, OtherTerm(keyword));
      var r := UpdatedHistory(prev, keyword);
      forall i, j | 0 <= i < j < |r| ensures Lower(r[i]) != Lower(r[j]) {
        assert r[j] == f[j - 1];
        if i > 0 {
          assert r[i] == f[i - 1];
        }
      }
    }
  }

  /** The view counts after opening `url`: that url's count goes up by one and
      no other count changes. */
  function CountedView(counts: map<string, nat>, url: string): (r: map<string, nat>)
    ensures ViewCount(r, url) == ViewCount(counts, url) + 1
    ensures forall u :: u != url ==> ViewCount(r, u) == ViewCount(counts, u)
  {
    counts[url := ViewCount(counts, url) + 1]
  }
}
