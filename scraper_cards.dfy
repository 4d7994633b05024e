/** The per-card extraction rules of the three store scrapers: what a product
    card on an Amazon, Flipkart or Nykaa search page becomes as a scraped row.
    The page is read by a browser; here a card is the handful of texts and
    attribute values the scraper reads from it, with "" standing for an
    element or attribute that is missing, and a `UrlLib` standing for the
    standard library's `urljoin` and `unquote`. */
module ScraperCards {
  import opened Wrappers
  import opened Text
  import Seqs
  import opened ScraperHelpers
  import opened PyJson

  /** `urllib.parse.urljoin` and `urllib.parse.unquote`, left abstract. */
  datatype UrlLib = UrlLib(join: (string, string) -> string, unquote: string -> string)

  const AmazonBase: string := "https://www.amazon.in"
  const FlipkartBase: string := "https://www.flipkart.com"
  const NykaaBase: string := "https://www.nykaa.com"

  /** One scraped product, with the eight keys every scraper writes. */
  datatype Scraped = Scraped(
    site: string,
    title: string,
    price: string,
    originalPrice: string,
    discountPercent: real,
    discountSource: string,
    url: Option<string>,
    image: Option<string>)

  /** The dictionary a scraper appends for a product. */
  function ToRow(s: Scraped): Row {
    map["site" := JStr(s.site), "Title" := JStr(s.title), "Price" := JStr(s.price),
        "OriginalPrice" := JStr(s.originalPrice), "DiscountPercent" := JNum(s.discountPercent),
        "DiscountSource" := JStr(s.discountSource), "URL" := StrOrNull(s.url),
        "image" := StrOrNull(s.image)]
  }

  // ---------------------------------------------------------------------------
  // Image attributes
  // ---------------------------------------------------------------------------

  /** The attributes of an `<img>` element; a missing element has none. */
  type Attrs = map<string, string>

  /** `img.get_attribute(name)`. */
  function Attr(img: Attrs, name: string): Option<string> {
    if name in img then Some(img[name]) else None
  }

  /** A truthy optional string: present and non-empty. */
  predicate Filled(v: Option<string>) { v.Some? && v.value != [] }

  predicate IsNotSpaceChar(c: char) { c != ' ' }

  /** `v.split(",")[0].strip().split(" ")[0]`: the URL of the first srcset
      candidate, which is the stripped first comma-separated field up to its
      first space. */
  function FirstSrcsetUrl(v: string): (r: string)
    ensures var field := PyStrip(PrefixWhile(v, IsNotComma));
      |r| <= |field| && r == field[..|r|] && (|r| < |field| ==> field[|r|] == ' ')
    ensures forall k :: 0 <= k < |r| ==> r[k] != ' ' && r[k] != ','
  {
    PrefixWhile(PyStrip(PrefixWhile(v, IsNotComma)), IsNotSpaceChar)
  }

  /** Whether an attribute name is a srcset (`"srcset" in attr`). */
  predicate IsSrcsetName(name: string) { Contains(name, "srcset") }

  /** The image URL an attribute value gives: a srcset is reduced to the URL
      of its first candidate, any other attribute is taken as it is. */
  function ImageValue(name: string, v: string): string {
    if IsSrcsetName(name) then FirstSrcsetUrl(v) else v
  }

  /** `names[k]` is the first attribute of the image with a non-empty value. */
  predicate FirstFilledAt(img: Attrs, names: seq<string>, k: int) {
    0 <= k < |names| && Filled(Attr(img, names[k]))
    && forall j :: 0 <= j < k ==> !Filled(Attr(img, names[j]))
  }

  /** The attribute `name` has a value whose image URL is not empty. */
  predicate Yields(img: Attrs, name: string) {
    Filled(Attr(img, name)) && ImageValue(name, Attr(img, name).value) != []
  }

  /** `names[k]` is the first attribute of the image whose image URL is not empty. */
  predicate FirstYieldAt(img: Attrs, names: seq<string>, k: int) {
    0 <= k < |names| && Yields(img, names[k])
    && forall j :: 0 <= j < k ==> !Yields(img, names[j])
  }

  /** The attribute value an image is taken from when the scan stops at the
      first attribute with a non-empty value, srcset reduced to its first URL;
      None when no attribute has a value. */
  function FirstImageAttr(img: Attrs, names: seq<string>): (r: Option<string>)
    ensures r.None? <==> forall k :: 0 <= k < |names| ==> !Filled(Attr(img, names[k]))
    ensures forall k :: FirstFilledAt(img, names, k) ==> r == Some(ImageValue(names[k], Attr(img, names[k]).value))
  {
    if names == [] then None
    else
      var v := Attr(img, names[0]);
      if !Filled(v) then
        var r := FirstImageAttr(img, names[1..]);
        assert forall k :: 1 <= k < |names| ==> names[k] == names[1..][k - 1];
        assert forall k :: FirstFilledAt(img, names, k) ==> FirstFilledAt(img, names[1..], k - 1);
        r
      else Some(ImageValue(names[0], v.value))
  }

  /** The scan that goes on past a srcset whose first URL is empty and keeps
      the last value read when nothing non-empty is found. */
  function FirstNonEmptyImageAttr(img: Attrs, names: seq<string>, sofar: Option<string>): (r: Option<string>)
    ensures forall k :: FirstYieldAt(img, names, k) ==> r == Some(ImageValue(names[k], Attr(img, names[k]).value))
    ensures (forall k :: 0 <= k < |names| ==> !Yields(img, names[k])) ==> r == sofar || r == Some([])
  {
    if names == [] then sofar
    else
      var v := Attr(img, names[0]);
      var rest := FirstNonEmptyImageAttr(img, names[1..], if Filled(v) then Some(ImageValue(names[0], v.value)) else sofar);
      assert forall k :: 1 <= k < |names| ==> names[k] == names[1..][k - 1];
      if Yields(img, names[0]) then Some(ImageValue(names[0], v.value))
      else
        assert forall k :: FirstYieldAt(img, names, k) ==> FirstYieldAt(img, names[1..], k - 1);
        rest
  }

  /** Where the stopping scan finds a non-empty value, the scan that goes on
      finds the same one. */
  lemma {:induction false} ScansAgreeOnFilledValue(img: Attrs, names: seq<string>, sofar: Option<string>)
    requires Filled(FirstImageAttr(img, names))
    ensures FirstNonEmptyImageAttr(img, names, sofar) == FirstImageAttr(img, names)
    decreases |names|
  {
    if names != [] && !Filled(Attr(img, names[0])) {
      ScansAgreeOnFilledValue(img, names[1..], sofar);
    }
  }

  // ---------------------------------------------------------------------------
  // Amazon
  // ---------------------------------------------------------------------------

  /** What the Amazon scraper reads from a search result card. */
  datatype AmazonCard = AmazonCard(
    titleText: string,    // "h2 a span"
    href: string,         // "h2 a" href
    img: Attrs,           // "img.s-image"
    priceText: string,    // "span.a-price > span.a-offscreen"
    origText: string,     // "span.a-text-price span.a-offscreen"
    badgeText: string)    // "span.savingsPercentage"

  const AmazonImageAttrs: seq<string> := ["src", "data-image-src", "srcset", "data-src"]

  const PlaceholderMarks: seq<string> :=
    ["placeholder", "transparent", "pixel", "no-image", "sprite", "ux-sprite"]

  /** An image URL that Amazon serves instead of the product picture. */
  predicate IsPlaceholderImage(u: string) {
    exists k :: 0 <= k < |PlaceholderMarks| && Contains(Lower(u), PlaceholderMarks[k])
  }

  /** The image of an Amazon card: the first filled attribute, made absolute,
      and dropped when it is a placeholder. */
  function AmazonImage(img: Attrs, join: (string, string) -> string): (r: Option<string>)
    ensures Filled(r) ==> !IsPlaceholderImage(r.value)
    ensures Filled(r) ==> Filled(FirstImageAttr(img, AmazonImageAttrs))
    ensures var found := FirstImageAttr(img, AmazonImageAttrs);
      Filled(found) && !IsPlaceholderImage(MakeAbsoluteUrl(AmazonBase, found.value, join).value)
      ==> r == MakeAbsoluteUrl(AmazonBase, found.value, join)
    ensures FirstImageAttr(img, AmazonImageAttrs).None? ==> r.None?
  {
    match FirstImageAttr(img, AmazonImageAttrs)
    case None => None
    case Some(v) =>
      if v == [] then Some(v)
      else
        var u := MakeAbsoluteUrl(AmazonBase, v, join).value;
        if IsPlaceholderImage(u) then None else Some(u)
  }

  /** The Amazon fallback: a price missing on one side is taken from the other. */
  function FillMissingPrice(price: string, orig: string): (r: (string, string))
    ensures (r.0 == "N/A") <==> (r.1 == "N/A")
    ensures r.0 == "N/A" <==> price == "N/A" && orig == "N/A"
    ensures price != "N/A" ==> r.0 == price
    ensures orig != "N/A" ==> r.1 == orig
    ensures price == "N/A" && orig != "N/A" ==> r.0 == orig
    ensures orig == "N/A" && price != "N/A" ==> r.1 == price
  {
    var p := if price == "N/A" && orig != "N/A" then orig else price;
    var o := if orig == "N/A" && p != "N/A" then p else orig;
    (p, o)
  }

  /** The percentage on a savings badge: its first digit run, or 0 without one. */
  function BadgeDiscount(badge: string): (d: real)
    ensures d >= 0.0
    ensures (forall k :: 0 <= k < |badge| ==> !IsDigit(badge[k])) ==> d == 0.0
  {
    match FirstDigitRun(badge)
    case None => 0.0
    case Some(run) => DigitsValue(run) as real
  }

  /** A badge reads as the first number written on it, whatever text comes
      before or after it. */
  lemma BadgeDiscountReads(pre: string, ds: string, rest: string)
    requires forall k :: 0 <= k < |pre| ==> !IsDigit(pre[k])
    requires ds != [] && AllDigits(ds)
    requires rest != [] ==> !IsDigit(rest[0])
    ensures BadgeDiscount(pre + ds + rest) == DigitsValue(ds) as real
  {
    FirstDigitRunOf(pre, ds, rest);
  }

  /** The row an Amazon card becomes; None when the card is skipped. */
  function AmazonItem(c: AmazonCard, lib: UrlLib): (r: Option<Scraped>)
    ensures r.None? <==> PyStrip(c.titleText) == []
    ensures r.Some? ==> r.value.site == "amazon" && r.value.title == PyStrip(c.titleText)
    ensures r.Some? ==> (r.value.price == "N/A" <==> r.value.originalPrice == "N/A")
    ensures r.Some? ==> r.value.discountPercent >= 0.0
    ensures r.Some? ==> (r.value.discountSource == "scraped" <==> r.value.discountPercent != 0.0)
    ensures r.Some? ==> (r.value.url.None? <==> c.href == [])
    ensures r.Some? ==> r.value.discountPercent == BadgeDiscount(c.badgeText)
    ensures r.Some? ==>
      (r.value.price, r.value.originalPrice)
      == FillMissingPrice(NormalizeDisplayPrice(PyStrip(c.priceText)), NormalizeDisplayPrice(PyStrip(c.origText)))
    ensures r.Some? ==> r.value.url == MakeAbsoluteUrl(AmazonBase, c.href, lib.join)
    ensures r.Some? ==> r.value.image == AmazonImage(c.img, lib.join)
  {
    var title := PyStrip(c.titleText);
    if title == [] then None
    else
      var prices := FillMissingPrice(NormalizeDisplayPrice(PyStrip(c.priceText)),
                                     NormalizeDisplayPrice(PyStrip(c.origText)));
      var d := BadgeDiscount(c.badgeText);
      Some(Scraped("amazon", title, prices.0, prices.1, d,
                   if d != 0.0 then "scraped" else "none",
                   MakeAbsoluteUrl(AmazonBase, c.href, lib.join),
                   AmazonImage(c.img, lib.join)))
  }

  // ---------------------------------------------------------------------------
  // Flipkart
  // ---------------------------------------------------------------------------

  /** The one or two digits in front of "% off" on a Flipkart card. */
  type PercentDigits = s: string | 1 <= |s| <= 2 && AllDigits(s) witness "0"

  /** What the Flipkart scraper reads from a `div[data-id]` card: the texts
      between tags of its HTML, the first `₹` amount, the discount digits,
      the first link's href and the first image. */
  datatype FlipkartCard = FlipkartCard(
    segments: seq<string>,
    priceMatch: string,
    badge: Option<PercentDigits>,
    href: string,
    img: Attrs)

  /** A text that mentions a price, a rating, a discount or the cart. */
  predicate MentionsPriceOrCart(t: string) {
    Contains(t, "₹") || Contains(t, "%") || Contains(t, "★")
    || Contains(Lower(t), "off") || Contains(Lower(t), "add to cart")
  }

  predicate IsTitleCandidate(t: string) { !MentionsPriceOrCart(t) }

  /** `c` is one of the texts that may be a title, stripped. */
  predicate StrippedFrom(segments: seq<string>, c: string) {
    exists t :: t in segments && IsTitleCandidate(t) && c == PyStrip(t)
  }

  /** The stripped texts that may be a product title. */
  function TitleCandidates(segments: seq<string>): (cs: seq<string>)
    ensures |cs| <= |segments|
    ensures forall k :: 0 <= k < |cs| ==> IsTitleCandidate(cs[k])
    ensures forall k :: 0 <= k < |cs| ==> StrippedFrom(segments, cs[k])
    ensures forall t :: t in segments && IsTitleCandidate(t) ==> PyStrip(t) in cs
  {
    var kept := Seqs.Filter(segments, IsTitleCandidate);
    var cs := StripAll(kept);
    CandidatesStayCandidates(kept);
    CandidatesFromSegments(segments, kept);
    cs
  }

  /** Each text stripped: `[t.strip() for t in ts]`. */
  function StripAll(ts: seq<string>): (r: seq<string>)
    ensures |r| == |ts| && forall k :: 0 <= k < |ts| ==> r[k] == PyStrip(ts[k])
  {
    seq(|ts|, k requires 0 <= k < |ts| => PyStrip(ts[k]))
  }

  lemma CandidatesStayCandidates(kept: seq<string>)
    requires forall k :: 0 <= k < |kept| ==> IsTitleCandidate(kept[k])
    ensures forall k :: 0 <= k < |kept| ==> IsTitleCandidate(StripAll(kept)[k])
  {
    forall k | 0 <= k < |kept| {
      StrippedCandidate(kept[k]);
    }
  }

  lemma CandidatesFromSegments(segments: seq<string>, kept: seq<string>)
    requires kept == Seqs.Filter(segments, IsTitleCandidate)
    ensures forall k :: 0 <= k < |kept| ==> StrippedFrom(segments, StripAll(kept)[k])
    ensures forall t :: t in segments && IsTitleCandidate(t) ==> PyStrip(t) in StripAll(kept)
  {
    var cs := StripAll(kept);
    assert forall t :: t in kept <==> t in segments && IsTitleCandidate(t) by {
      forall t {
        Seqs.FilterMembership(segments, IsTitleCandidate, t);
      }
    }
    forall t | t in kept
      ensures PyStrip(t) in cs
    {
      var k :| 0 <= k < |kept| && kept[k] == t;
      assert cs[k] == PyStrip(t);
      assert exists u :: u in segments && IsTitleCandidate(u) && cs[k] == PyStrip(u);
    }
    forall k | 0 <= k < |kept|
      ensures StrippedFrom(segments, cs[k])
    {
      var t := kept[k];
      assert t in segments && IsTitleCandidate(t) by {
        Seqs.FilterMembership(segments, IsTitleCandidate, t);
      }
      assert cs[k] == PyStrip(t);
    }
  }

  /** Stripping a text that mentions no price, rating, discount or cart
      keeps it that way. */
  lemma StrippedCandidate(t: string)
    requires IsTitleCandidate(t)
    ensures IsTitleCandidate(PyStrip(t))
  {
    StripAddsNoSubstring(t, "₹");
    StripAddsNoSubstring(t, "%");
    StripAddsNoSubstring(t, "★");
    StripAddsNoSubstring(t, "off");
    StripAddsNoSubstring(t, "add to cart");
  }

  /** `max(cs, key=len)`: the index of the first longest string. */
  function LongestIndex(cs: seq<string>): (j: nat)
    requires |cs| > 0
    ensures j < |cs|
    ensures forall k :: 0 <= k < |cs| ==> |cs[k]| <= |cs[j]|
    ensures forall k :: 0 <= k < j ==> |cs[k]| < |cs[j]|
  {
    if |cs| == 1 then 0
    else
      var j := LongestIndex(cs[..|cs| - 1]);
      assert forall k :: 0 <= k < |cs| - 1 ==> cs[k] == cs[..|cs| - 1][k];
      if |cs[|cs| - 1]| > |cs[j]| then |cs| - 1 else j
  }

  /** The title of a Flipkart card: the longest candidate text. */
  function FlipkartTitle(segments: seq<string>): (r: Option<string>)
    ensures r.None? <==> TitleCandidates(segments) == []
    ensures r.Some? ==> r.value in TitleCandidates(segments)
    ensures r.Some? ==> forall t :: t in TitleCandidates(segments) ==> |t| <= |r.value|
    ensures r.Some? ==> exists j :: FirstLongestAt(TitleCandidates(segments), j) && TitleCandidates(segments)[j] == r.value
  {
    var cs := TitleCandidates(segments);
    if cs == [] then None
    else
      var j := LongestIndex(cs);
      assert FirstLongestAt(cs, j);
      Some(cs[j])
  }

  /** `cs[j]` is the first of the longest strings in `cs`. */
  predicate FirstLongestAt(cs: seq<string>, j: int) {
    0 <= j < |cs|
    && (forall k :: 0 <= k < |cs| ==> |cs[k]| <= |cs[j]|)
    && (forall k :: 0 <= k < j ==> |cs[k]| < |cs[j]|)
  }

  /** The undiscounted price recovered from a price and a discount percentage,
      rounded to a whole amount. */
  function BackComputedOriginal(p: real, d: nat): (o: int)
    requires d < 100
    ensures p * 100.0 / (100 - d) as real - 0.5 <= o as real <= p * 100.0 / (100 - d) as real + 0.5
  {
    RoundHalfEven(p * 100.0 / (100 - d) as real)
  }

  /** Taking the badge's discount off the recovered original price gives back
      the price, up to the rounding of the original. */
  lemma DiscountRecoversPrice(p: real, d: nat)
    requires d < 100
    ensures var o := BackComputedOriginal(p, d) as real;
      p - 0.5 <= o * (100 - d) as real / 100.0 <= p + 0.5
  {
    var o := BackComputedOriginal(p, d) as real;
    var q := (100 - d) as real;
    var x := p * 100.0 / q;
    assert x * q == p * 100.0;
    NonNegativeProduct(x + 0.5 - o, q);
    NonNegativeProduct(o - x + 0.5, q);
    assert o * q <= x * q + 0.5 * q;
    assert o * q >= x * q - 0.5 * q;
  }

  lemma NonNegativeProduct(a: real, b: real)
    requires a >= 0.0 && b >= 0.0
    ensures a * b >= 0.0
  {
  }

  /** For a positive price and a real discount the recovered original is a
      whole amount no smaller than the price, less half a unit. */
  lemma RecoveredOriginalAtLeastPrice(p: real, d: nat)
    requires p > 0.0 && 0 < d < 100
    ensures p * 100.0 / (100 - d) as real >= p
    ensures BackComputedOriginal(p, d) >= 0
  {
    var q := (100 - d) as real;
    var x := p * 100.0 / q;
    assert x * q == p * 100.0;
    NonNegativeProduct(p, d as real);
    assert p * 100.0 - p * q == p * d as real;
    if x < p {
      NonNegativeProduct(p - x, q);
      assert false;
    }
  }

  predicate IsNotQuery(c: char) { c != '?' }

  /** The product link of a Flipkart card: a site path without its query,
      joined to the site, or an absolute http(s) link; None otherwise. */
  function FlipkartUrl(href: string, lib: UrlLib): (r: Option<string>)
    ensures href == [] ==> r.None?
    ensures r.Some? && !StartsWith(lib.unquote(href), "/") ==> r == Some(lib.unquote(href))
    ensures r.Some? ==> StartsWith(lib.unquote(href), "/") || StartsWith(lib.unquote(href), "http")
    ensures href != [] && StartsWith(lib.unquote(href), "/")
            ==> r == Some(lib.join(FlipkartBase, PrefixWhile(lib.unquote(href), IsNotQuery)))
    ensures href != [] && StartsWith(lib.unquote(href), "http") ==> r.Some?
  {
    if href == [] then None
    else
      var h := lib.unquote(href);
      if StartsWith(h, "/") then Some(lib.join(FlipkartBase, PrefixWhile(h, IsNotQuery)))
      else if StartsWith(h, "http") then Some(h)
      else None
  }

  /** The image of a Flipkart card: its src, or its data-src when the src is
      missing, empty or an inline `data:` URI; made absolute when filled. */
  function FlipkartImage(img: Attrs, join: (string, string) -> string): (r: Option<string>)
    ensures Filled(r) ==> Filled(Attr(img, "src")) || Filled(Attr(img, "data-src"))
    ensures Filled(Attr(img, "src")) && !StartsWith(Attr(img, "src").value, "data:")
            ==> r == MakeAbsoluteUrl(FlipkartBase, Attr(img, "src").value, join)
    ensures (!Filled(Attr(img, "src")) || StartsWith(Attr(img, "src").value, "data:"))
            && Filled(Attr(img, "data-src"))
            ==> r == MakeAbsoluteUrl(FlipkartBase, Attr(img, "data-src").value, join)
  {
    var src := Attr(img, "src");
    var v := if !Filled(src) || StartsWith(src.value, "data:") then Attr(img, "data-src") else src;
    if Filled(v) then MakeAbsoluteUrl(FlipkartBase, v.value, join) else v
  }

  /** The original price a Flipkart card shows: recovered from its price and
      badge when both are non-zero, "N/A" otherwise. */
  function FlipkartOriginal(priceMatch: string, d: nat): (r: string)
    requires d < 100
    ensures d == 0 || !ScraperHelpers.Truthy(ParsePriceToNumber(priceMatch)) ==> r == "N/A"
  {
    var pnum := ParsePriceToNumber(priceMatch);
    var raw := if ScraperHelpers.Truthy(pnum) && d != 0 then WithCommas(BackComputedOriginal(pnum.value, d)) else "";
    NormalizeDisplayPrice(raw)
  }

  /** The discount of a Flipkart card: its badge number, 0 without a badge. */
  function FlipkartDiscount(badge: Option<PercentDigits>): (d: nat)
    ensures d < 100
    ensures badge.None? ==> d == 0
    ensures badge.Some? ==> d == DigitsValue(badge.value)
  {
    match badge
    case None => 0
    case Some(digits) =>
      DigitsValueBound(digits);
      assert Pow10(|digits|) <= 100 by {
        assert Pow10(1) == 10 && Pow10(2) == 100;
      }
      DigitsValue(digits)
  }

  /** The row a Flipkart card becomes; None when the card is skipped. */
  function FlipkartItem(c: FlipkartCard, lib: UrlLib): (r: Option<Scraped>)
    ensures r.None? <==> !Filled(FlipkartTitle(c.segments)) || c.priceMatch == []
    ensures r.Some? ==> r.value.site == "flipkart" && Some(r.value.title) == FlipkartTitle(c.segments)
    ensures r.Some? ==> 0.0 <= r.value.discountPercent < 100.0
    ensures r.Some? ==> (r.value.discountSource == "scraped_badge" <==> r.value.discountPercent != 0.0)
    ensures r.Some? && r.value.originalPrice != "N/A" ==>
              r.value.discountPercent != 0.0 && ScraperHelpers.Truthy(ParsePriceToNumber(c.priceMatch))
    ensures r.Some? ==> r.value.price == NormalizeDisplayPrice(c.priceMatch)
    ensures r.Some? ==> r.value.discountPercent == FlipkartDiscount(c.badge) as real
    ensures r.Some? ==> r.value.originalPrice == FlipkartOriginal(c.priceMatch, FlipkartDiscount(c.badge))
    ensures r.Some? ==> r.value.url == FlipkartUrl(c.href, lib) && r.value.image == FlipkartImage(c.img, lib.join)
  {
    var title := FlipkartTitle(c.segments);
    if !Filled(title) || c.priceMatch == [] then None
    else
      var d := FlipkartDiscount(c.badge);
      var orig := FlipkartOriginal(c.priceMatch, d);
      assert orig != "N/A" ==> d != 0 && ScraperHelpers.Truthy(ParsePriceToNumber(c.priceMatch));
      Some(Scraped("flipkart", title.value, NormalizeDisplayPrice(c.priceMatch), orig,
                   d as real, if d != 0 then "scraped_badge" else "none",
                   FlipkartUrl(c.href, lib), FlipkartImage(c.img, lib.join)))
  }

  /** An original price that Flipkart recovers from a positive price is shown
      as the grouped whole amount within half a unit of price*100/(100-d). */
  lemma FlipkartOriginalShown(priceMatch: string, d: nat)
    requires 0 < d < 100
    requires var p := ParsePriceToNumber(priceMatch); p.Some? && p.value > 0.0
    ensures var p := ParsePriceToNumber(priceMatch).value;
      exists n: nat :: FlipkartOriginal(priceMatch, d) == WithCommas(n)
        && p * 100.0 / (100 - d) as real - 0.5 <= n as real <= p * 100.0 / (100 - d) as real + 0.5
  {
    var p := ParsePriceToNumber(priceMatch).value;
    RecoveredOriginalAtLeastPrice(p, d);
    var n: nat := BackComputedOriginal(p, d);
    assert FlipkartOriginal(priceMatch, d) == NormalizeDisplayPrice(WithCommas(n));
    DisplayGroupedPrice(n);
  }

  // ---------------------------------------------------------------------------
  // Nykaa
  // ---------------------------------------------------------------------------

  /** What the Nykaa scraper reads from a `div.css-1rd7vky` card, plus the
      `og:image` content of the product page ("" when it is not reached). */
  datatype NykaaCard = NykaaCard(
    href: string,         // "a[href]", or the enclosing link
    img: Attrs,           // "img"
    ogContent: string,    // meta property="og:image" on the product page
    title: string,        // "div.css-xrzmfa"
    priceText: string,    // "span.css-111z9ua"
    origText: string,     // "span.css-17x46n5"
    badgeText: string)    // "span.css-cjd9an"

  const NykaaImageAttrs: seq<string> := ["src", "data-src", "data-srcset", "srcset"]

  /** The image of a Nykaa card: the first non-empty listing attribute made
      absolute, else the product page's og:image when the card has a link. */
  function NykaaImage(c: NykaaCard, url: Option<string>, join: (string, string) -> string): (r: Option<string>)
    ensures Filled(r) ==> Filled(FirstNonEmptyImageAttr(c.img, NykaaImageAttrs, None)) || c.ogContent != []
    ensures var listed := FirstNonEmptyImageAttr(c.img, NykaaImageAttrs, None);
      Filled(listed) && Filled(MakeAbsoluteUrl(NykaaBase, listed.value, join))
      ==> r == MakeAbsoluteUrl(NykaaBase, listed.value, join)
    ensures var listed := FirstNonEmptyImageAttr(c.img, NykaaImageAttrs, None);
      !(Filled(listed) && Filled(MakeAbsoluteUrl(NykaaBase, listed.value, join)))
      && Filled(url) && c.ogContent != []
      ==> r == MakeAbsoluteUrl(NykaaBase, PyStrip(c.ogContent), join)
    ensures !Filled(FirstNonEmptyImageAttr(c.img, NykaaImageAttrs, None)) && !(Filled(url) && c.ogContent != [])
            ==> !Filled(r)
  {
    var listed := FirstNonEmptyImageAttr(c.img, NykaaImageAttrs, None);
    var img := if Filled(listed) then MakeAbsoluteUrl(NykaaBase, listed.value, join) else listed;
    if !Filled(img) && Filled(url) && c.ogContent != [] then
      MakeAbsoluteUrl(NykaaBase, PyStrip(c.ogContent), join)
    else img
  }

  /** The discount a Nykaa badge states; a badge text without a number makes
      the card unreadable (Failure), no badge gives None. */
  function NykaaBadge(badgeText: string): (r: Result<Option<nat>>)
    ensures r.Failure? <==> badgeText != [] && FirstDigitRun(badgeText).None?
    ensures r == Success(None) <==> badgeText == []
    ensures badgeText != [] && FirstDigitRun(badgeText).Some?
            ==> r == Success(Some(DigitsValue(FirstDigitRun(badgeText).value)))
  {
    if badgeText == [] then Success(None)
    else match FirstDigitRun(badgeText)
      case None => Failure
      case Some(run) => Success(Some(DigitsValue(run)))
  }

  /** The original price a Nykaa card shows: its MRP text when that reads
      as a price, else recovered from the price and a badge strictly between
      0 and 95, else "N/A". */
  function NykaaOriginal(price: string, origText: string, d: Option<nat>): (r: string)
    ensures origText != [] && NormalizeDisplayPrice(PyStrip(origText)) != "N/A"
            ==> r == NormalizeDisplayPrice(PyStrip(origText))
    ensures (origText == [] || NormalizeDisplayPrice(PyStrip(origText)) == "N/A")
            && !(d.Some? && ParsePriceToNumber(price).Some? && 0 < d.value < 95)
            ==> r == "N/A"
  {
    var orig := if origText != [] then NormalizeDisplayPrice(PyStrip(origText)) else "N/A";
    var pnum := ParsePriceToNumber(price);
    if orig == "N/A" && d.Some? && pnum.Some? && 0 < d.value < 95 then
      WithCommas(BackComputedOriginal(pnum.value, d.value))
    else orig
  }

  /** The row a Nykaa card becomes; None when the card is skipped. */
  function NykaaItem(c: NykaaCard, lib: UrlLib): (r: Option<Scraped>)
    ensures r.None? <==> NykaaBadge(c.badgeText).Failure? || c.title == [] || c.priceText == []
    ensures r.Some? ==> r.value.site == "nykaa" && r.value.title == PyStrip(c.title)
    ensures r.Some? ==> r.value.price == NormalizeDisplayPrice(PyStrip(c.priceText))
    ensures r.Some? ==> (r.value.discountSource == "scraped_badge" <==> c.badgeText != [])
    ensures r.Some? ==> r.value.discountPercent >= 0.0
    ensures r.Some? ==> (r.value.url.Some? <==> c.href != [])
    ensures r.Some? && c.badgeText != [] ==>
              var d := DigitsValue(FirstDigitRun(c.badgeText).value);
              r.value.discountPercent == d as real
              && r.value.originalPrice == NykaaOriginal(r.value.price, c.origText, Some(d))
    ensures r.Some? && c.badgeText == [] ==>
              r.value.discountPercent == 0.0 && r.value.originalPrice == NykaaOriginal(r.value.price, c.origText, None)
    ensures r.Some? && c.href != [] ==> r.value.url == Some(lib.join(NykaaBase, PyStrip(c.href)))
    ensures r.Some? ==> r.value.image == NykaaImage(c, r.value.url, lib.join)
  {
    var url := if c.href != [] then Some(lib.join(NykaaBase, PyStrip(c.href))) else None;
    var image := NykaaImage(c, url, lib.join);
    match NykaaBadge(c.badgeText)
    case Failure => None
    case Success(d) =>
      if c.title == [] || c.priceText == [] then None
      else
        var price := NormalizeDisplayPrice(PyStrip(c.priceText));
        Some(Scraped("nykaa", PyStrip(c.title), price, NykaaOriginal(price, c.origText, d),
                     if d.Some? then d.value as real else 0.0,
                     if d.Some? then "scraped_badge" else "none",
                     url, image))
  }

  /** A Nykaa card whose MRP is missing or does not read as a price, with a
      badge strictly between 0 and 95 and a positive price, shows the
      recovered original price. */
  lemma NykaaOriginalRecovered(price: string, origText: string, d: nat)
    requires origText == [] || NormalizeDisplayPrice(PyStrip(origText)) == "N/A"
    requires 0 < d < 95
    requires var p := ParsePriceToNumber(price); p.Some? && p.value > 0.0
    ensures var p := ParsePriceToNumber(price).value;
      exists n: nat :: NykaaOriginal(price, origText, Some(d)) == WithCommas(n)
        && p * 100.0 / (100 - d) as real - 0.5 <= n as real <= p * 100.0 / (100 - d) as real + 0.5
  {
    var p := ParsePriceToNumber(price).value;
    RecoveredOriginalAtLeastPrice(p, d);
    var n: nat := BackComputedOriginal(p, d);
    assert NykaaOriginal(price, origText, Some(d)) == WithCommas(n);
  }

  /** A badge of 95% or more never produces a recovered original price. */
  lemma NykaaLargeBadgeKeepsNA(price: string, d: nat)
    requires d >= 95
    ensures NykaaOriginal(price, "", Some(d)) == "N/A"
  {
  }
}
