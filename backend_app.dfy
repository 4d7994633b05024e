/** The backend's scrape endpoint: each scraped row is normalised to the
    frontend's deal shape, the rows of the three stores are merged in a fixed
    order with failed stores reported separately, and an optional maximum
    discount filters the merged list. The three scrapers' outcomes are inputs:
    running them concurrently is not part of this model. */
module Backend {
  import opened Wrappers
  import opened Text
  import Seqs
  import opened PyJson

  /** A deal as the endpoint returns it. */
  datatype Deal = Deal(
    site: string,
    title: Json,
    priceText: Json,
    originalPriceText: Json,
    discountPercent: Option<real>,
    discountSource: Json,
    url: Json,
    image: Json)

  // ---------------------------------------------------------------------------
  // normalize_row
  // ---------------------------------------------------------------------------

  const TitleKeys: seq<string> := ["Title", "title"]
  const PriceKeys: seq<string> := ["Price", "price"]
  const OriginalPriceKeys: seq<string> := ["OriginalPrice", "original_price", "Original Price"]
  const UrlKeys: seq<string> := ["URL", "Product Link", "link", "url"]
  const ImageKeys: seq<string> := ["image", "img", "thumbnail"]
  const DiscountKeys: seq<string> := ["DiscountPercent", "discount_percent", "discount"]
  const DiscountSourceKeys: seq<string> := ["DiscountSource", "discount_source"]

  /** Python's `str(v)` for the values whose text the discount parser reads. */
  function PyStr(v: Json): string
    requires !v.JNum? && !v.JBool?
  {
    match v
    case JNull => "None"
    case JStr(s) => s
  }

  /** The discount number of a row: a number (a boolean counts as one) as a
      float, otherwise the first decimal number in its text, else None. */
  function DiscountNumber(dp: Json): (r: Option<real>)
    ensures dp.JNull? ==> r.None?
    ensures dp.JStr? ==> (r.None? <==> forall k :: 0 <= k < |dp.s| ==> !IsDigit(dp.s[k]))
    ensures dp.JNum? || dp.JBool? ==> r.Some?
  {
    match dp
    case JNum(x) => Some(x)
    case JBool(b) => Some(if b then 1.0 else 0.0)
    case JStr(s) => FirstDecimalNumber(s)
    case JNull => NoneHasNoDigit(); FirstDecimalNumber(PyStr(dp))
  }

  /** `normalize_row`: None (as `Success(None)`) for an empty row; Failure when
      the row's `site` is a truthy non-string, whose `.lower()` raises. */
  function NormalizeRow(row: Row): (r: Result<Option<Deal>>)
    ensures |row| == 0 <==> r == Success(None)
    ensures r.Failure? <==> |row| != 0 && Truthy(Get(row, "site")) && !Get(row, "site").JStr?
  {
    if |row| == 0 then Success(None)
    else
      var site := OrElse(Get(row, "site"), JStr(""));
      if !site.JStr? then Failure
      else Success(Some(DealOf(row, Lower(site.s))))
  }

  /** The deal of a non-empty row whose lower-cased site is `site`: each field
      is the first truthy value among its aliases. */
  function DealOf(row: Row, site: string): (d: Deal)
    ensures d.site == site
    ensures Truthy(d.title) || d.title == JStr("")
    ensures Truthy(d.priceText) || d.priceText == JStr("")
    ensures Truthy(d.originalPriceText) || d.originalPriceText == JStr("")
  {
    Deal(
      site,
      OrElse(FirstTruthy(row, TitleKeys), JStr("")),
      OrElse(FirstTruthy(row, PriceKeys), JStr("")),
      OrElse(FirstTruthy(row, OriginalPriceKeys), JStr("")),
      DiscountNumber(FirstTruthy(row, DiscountKeys)),
      FirstTruthy(row, DiscountSourceKeys),
      FirstTruthy(row, UrlKeys),
      FirstTruthy(row, ImageKeys))
  }

  /** The site is the row's lower-cased site, "" without one; the title is
      the first truthy of `Title` and `title`, "" without one. */
  lemma NormalizedSiteAndTitle(row: Row)
    requires NormalizeRow(row).Success? && NormalizeRow(row).value.Some?
    ensures var d := NormalizeRow(row).value.value;
      (Truthy(Get(row, "site")) ==> d.site == Lower(Get(row, "site").s))
      && (!Truthy(Get(row, "site")) ==> d.site == [])
      && (Truthy(Get(row, "Title")) ==> d.title == Get(row, "Title"))
      && (!Truthy(Get(row, "Title")) && Truthy(Get(row, "title")) ==> d.title == Get(row, "title"))
      && (!Truthy(Get(row, "Title")) && !Truthy(Get(row, "title")) ==> d.title == JStr(""))
  {
    assert TitleKeys[0] == "Title" && TitleKeys[1] == "title";
    FirstTruthyIsFirst(row, TitleKeys);
  }

  lemma NoneHasNoDigit()
    ensures FirstDecimalNumber("None").None?
  {
    assert forall k :: 0 <= k < |"None"| ==> !IsDigit("None"[k]);
  }

  /** A zero discount is falsy, so the aliases after it are read; when the
      last alias is missing the discount becomes None, not 0. */
  lemma ZeroDiscountBecomesNone(row: Row)
    requires Get(row, "DiscountPercent") == JNum(0.0)
    requires "discount_percent" !in row && "discount" !in row
    requires !(Truthy(Get(row, "site")) && !Get(row, "site").JStr?)
    ensures NormalizeRow(row).Success? && NormalizeRow(row).value.Some?
    ensures NormalizeRow(row).value.value.discountPercent.None?
  {
    assert DiscountKeys[0] == "DiscountPercent" && DiscountKeys[1] == "discount_percent";
    assert DiscountKeys[2] == "discount";
    FirstTruthyIsFirst(row, DiscountKeys);
    assert FirstTruthy(row, DiscountKeys) == JNull;
    NoneHasNoDigit();
  }

  /** A non-zero numeric discount in the first alias is kept as it is. */
  lemma NumericDiscountKept(row: Row, x: real)
    requires Get(row, "DiscountPercent") == JNum(x) && x != 0.0
    requires !(Truthy(Get(row, "site")) && !Get(row, "site").JStr?)
    ensures NormalizeRow(row).Success? && NormalizeRow(row).value.Some?
    ensures NormalizeRow(row).value.value.discountPercent == Some(x)
  {
    assert "DiscountPercent" in row;
    assert FirstTruthy(row, DiscountKeys) == JNum(x);
  }

  /** A discount given as text is its first decimal number. */
  lemma TextDiscountParsed(row: Row, s: string)
    requires Get(row, "DiscountPercent") == JStr(s) && s != []
    requires !(Truthy(Get(row, "site")) && !Get(row, "site").JStr?)
    ensures NormalizeRow(row).Success? && NormalizeRow(row).value.Some?
    ensures NormalizeRow(row).value.value.discountPercent == FirstDecimalNumber(s)
  {
    assert "DiscountPercent" in row;
    assert FirstTruthy(row, DiscountKeys) == JStr(s);
  }

  // ---------------------------------------------------------------------------
  // Merge of the three sources
  // ---------------------------------------------------------------------------

  /** What `asyncio.gather(..., return_exceptions=True)` yields for one store:
      the exception's message, or the scraped rows. */
  datatype SourceOutcome = Raised(message: string) | Returned(rows: seq<Row>)

  datatype SiteError = SiteError(site: string, message: string)

  datatype Merged = Merged(items: seq<Deal>, errors: seq<SiteError>)

  const AmazonName: string := "amazon"
  const FlipkartName: string := "flipkart"
  const NykaaName: string := "nykaa"

  /** The stores in the order their results are merged. */
  const SiteNames: seq<string> := [AmazonName, FlipkartName, NykaaName]

  /** A deal whose site is empty takes the name of the store it came from. */
  function WithSite(d: Deal, name: string): (r: Deal)
    ensures r.site == if d.site == [] then name else d.site
    ensures r.(site := d.site) == d
  {
    if d.site == [] then d.(site := name) else d
  }

  /** The deals of one store's rows in order, empty rows dropped; Failure
      when some row raises. */
  function NormalizeAll(name: string, rows: seq<Row>): (r: Result<seq<Deal>>)
    ensures r.Success? ==> |r.value| <= |rows|
    decreases |rows|
  {
    if rows == [] then Success([])
    else
      match NormalizeAll(name, rows[..|rows| - 1])
      case Failure => Failure
      case Success(before) => AddRow(before, name, rows[|rows| - 1])
  }

  /** One more row of a store: Failure if it raises, else its deal (if any)
      appended with the store's name as fallback site. */
  function AddRow(before: seq<Deal>, name: string, row: Row): (r: Result<seq<Deal>>)
    ensures r.Success? ==> |r.value| <= |before| + 1
  {
    match NormalizeRow(row)
    case Failure => Failure
    case Success(None) => Success(before)
    case Success(Some(d)) => Success(before + [WithSite(d, name)])
  }

  /** Every deal of a store names a store: its own site, or the store's name. */
  lemma {:induction false} NormalizeAllSites(name: string, rows: seq<Row>)
    requires name != [] && NormalizeAll(name, rows).Success?
    ensures forall k :: 0 <= k < |NormalizeAll(name, rows).value| ==> NormalizeAll(name, rows).value[k].site != []
    decreases |rows|
  {
    if rows != [] {
      NormalizeAllSites(name, rows[..|rows| - 1]);
    }
  }

  /** The merge of the first n stores: deals appended store by store, one
      error entry per store that raised; Failure when a row raises. */
  function MergeUpTo(outcomes: seq<SourceOutcome>, n: nat): (r: Result<Merged>)
    requires n <= |SiteNames| && n <= |outcomes|
    ensures r.Success? ==> |r.value.errors| <= n
  {
    if n == 0 then Success(Merged([], []))
    else
      match MergeUpTo(outcomes, n - 1)
      case Failure => Failure
      case Success(m) => MergeOne(m, SiteNames[n - 1], outcomes[n - 1])
  }

  /** One store added to the merge: its error recorded, its deals appended,
      or Failure when one of its rows raises. */
  function MergeOne(m: Merged, name: string, outcome: SourceOutcome): (r: Result<Merged>)
    ensures r.Success? ==> m.items <= r.value.items && m.errors <= r.value.errors
    ensures r.Success? ==> |r.value.errors| <= |m.errors| + 1
    ensures outcome.Returned? && r.Success? ==> r.value.errors == m.errors
    ensures outcome.Raised? ==> r.Success? && r.value.items == m.items
  {
    match outcome
    case Raised(msg) => Success(Merged(m.items, m.errors + [SiteError(name, msg)]))
    case Returned(rows) =>
      match NormalizeAll(name, rows)
      case Failure => Failure
      case Success(ds) => Success(Merged(m.items + ds, m.errors))
  }

  /** The number of stores `zip(site_names, gathered)` pairs up. */
  function Paired(outcomes: seq<SourceOutcome>): (n: nat)
    ensures n <= |SiteNames| && n <= |outcomes|
  {
    if |outcomes| < |SiteNames| then |outcomes| else |SiteNames|
  }

  /** One more row: the rows so far, then the next one. */
  lemma NormalizeAllStep(name: string, rows: seq<Row>, j: nat)
    requires j < |rows| && NormalizeAll(name, rows[..j]).Success?
    ensures NormalizeAll(name, rows[..j + 1]) == AddRow(NormalizeAll(name, rows[..j]).value, name, rows[j])
  {
    assert rows[..j + 1][..j] == rows[..j];
  }

  /** The rows of one store appended to `combined`. */
  method AppendSource(combined: seq<Deal>, name: string, rows: seq<Row>) returns (r: Result<seq<Deal>>)
    ensures r.Failure? <==> NormalizeAll(name, rows).Failure?
    ensures r.Success? ==> r.value == combined + NormalizeAll(name, rows).value
  {
    var out := combined;
    var j := 0;
    while j < |rows|
      invariant 0 <= j <= |rows|
      invariant NormalizeAll(name, rows[..j]).Success?
      invariant out == combined + NormalizeAll(name, rows[..j]).value
    {
      NormalizeAllStep(name, rows, j);
      match NormalizeRow(rows[j]) {
        case Failure =>
          FailureExtends(name, rows, j + 1);
          return Failure;
        case Success(None) =>
        case Success(Some(d)) =>
          assert out + [WithSite(d, name)] == combined + (NormalizeAll(name, rows[..j]).value + [WithSite(d, name)]);
          out := out + [WithSite(d, name)];
      }
      j := j + 1;
    }
    assert rows[..j] == rows;
    return Success(out);
  }

  /** The list raises exactly when one of its rows does. */
  lemma {:induction false} NormalizeAllFails(name: string, rows: seq<Row>)
    ensures NormalizeAll(name, rows).Failure? <==> exists k :: 0 <= k < |rows| && NormalizeRow(rows[k]).Failure?
    decreases |rows|
  {
    if rows != [] {
      var init := rows[..|rows| - 1];
      NormalizeAllFails(name, init);
      if NormalizeAll(name, rows).Failure? {
        if NormalizeAll(name, init).Failure? {
          var k :| 0 <= k < |init| && NormalizeRow(init[k]).Failure?;
          assert init[k] == rows[k];
        } else {
          assert NormalizeRow(rows[|rows| - 1]).Failure?;
        }
      } else {
        forall k | 0 <= k < |rows| ensures !NormalizeRow(rows[k]).Failure? {
          if k < |init| {
            assert init[k] == rows[k];
          }
        }
      }
    }
  }

  /** A row that raises makes the whole list raise. */
  lemma FailureExtends(name: string, rows: seq<Row>, j: nat)
    requires j <= |rows| && NormalizeAll(name, rows[..j]).Failure?
    ensures NormalizeAll(name, rows).Failure?
  {
    NormalizeAllFails(name, rows[..j]);
    var k :| 0 <= k < j && NormalizeRow(rows[..j][k]).Failure?;
    assert rows[..j][k] == rows[k];
    NormalizeAllFails(name, rows);
  }

  /** The loop over `zip(site_names, gathered)`. */
  method Merge(outcomes: seq<SourceOutcome>) returns (r: Result<Merged>)
    ensures r == MergeUpTo(outcomes, Paired(outcomes))
  {
    var combined: seq<Deal> := [];
    var errors: seq<SiteError> := [];
    var n := Paired(outcomes);
    var i := 0;
    while i < n
      invariant 0 <= i <= n
      invariant MergeUpTo(outcomes, i) == Success(Merged(combined, errors))
      decreases n - i
    {
      var step := MergeStore(combined, errors, SiteNames[i], outcomes[i]);
      if step.Failure? {
        FailureStays(outcomes, i + 1, n);
        return Failure;
      }
      combined, errors := step.value.items, step.value.errors;
      i := i + 1;
    }
    return Success(Merged(combined, errors));
  }

  /** One pass of the loop: a store that raised is recorded as an error, the
      rows of one that returned are appended, stopping at a row that raises. */
  method MergeStore(combined: seq<Deal>, errors: seq<SiteError>, name: string, outcome: SourceOutcome)
    returns (r: Result<Merged>)
    ensures r == MergeOne(Merged(combined, errors), name, outcome)
  {
    match outcome {
      case Raised(msg) =>
        return Success(Merged(combined, errors + [SiteError(name, msg)]));
      case Returned(rows) =>
        var appended := AppendSource(combined, name, rows);
        if appended.Failure? {
          return Failure;
        }
        return Success(Merged(appended.value, errors));
    }
  }

  /** One more store in the merge, when its scraper raised: the error is recorded. */
  lemma MergeRaised(outcomes: seq<SourceOutcome>, i: nat, combined: seq<Deal>, errors: seq<SiteError>)
    requires i < |SiteNames| && i < |outcomes| && outcomes[i].Raised?
    requires MergeUpTo(outcomes, i) == Success(Merged(combined, errors))
    ensures MergeUpTo(outcomes, i + 1) == Success(Merged(combined, errors + [SiteError(SiteNames[i], outcomes[i].message)]))
  {
  }

  /** Once the merge has failed it stays failed. */
  lemma {:induction false} FailureStays(outcomes: seq<SourceOutcome>, i: nat, n: nat)
    requires i <= n <= |SiteNames| && n <= |outcomes|
    requires MergeUpTo(outcomes, i).Failure?
    ensures MergeUpTo(outcomes, n).Failure?
    decreases n - i
  {
    if i < n {
      FailureStays(outcomes, i + 1, n);
    }
  }

  /** Every merged deal names its store. */
  lemma {:induction false} MergedSitesFilled(outcomes: seq<SourceOutcome>, n: nat)
    requires n <= |SiteNames| && n <= |outcomes|
    requires MergeUpTo(outcomes, n).Success?
    ensures forall k :: 0 <= k < |MergeUpTo(outcomes, n).value.items| ==> MergeUpTo(outcomes, n).value.items[k].site != []
  {
    if n > 0 {
      MergedSitesFilled(outcomes, n - 1);
      if outcomes[n - 1].Returned? {
        assert SiteNames[n - 1] != [];
        NormalizeAllSites(SiteNames[n - 1], outcomes[n - 1].rows);
      }
    }
  }

  /** One error entry per store that raised, in store order. */
  lemma {:induction false} OneErrorPerRaisedStore(outcomes: seq<SourceOutcome>, n: nat)
    requires n <= |SiteNames| && n <= |outcomes|
    requires MergeUpTo(outcomes, n).Success?
    ensures |MergeUpTo(outcomes, n).value.errors| == Seqs.Count(outcomes[..n], IsRaised)
  {
    if n > 0 {
      OneErrorPerRaisedStore(outcomes, n - 1);
      CountSnoc(outcomes[..n - 1], outcomes[n - 1], IsRaised);
      assert outcomes[..n] == outcomes[..n - 1] + [outcomes[n - 1]];
    }
  }

  predicate IsRaised(o: SourceOutcome) { o.Raised? }

  lemma {:induction false} CountSnoc<T>(s: seq<T>, x: T, p: T -> bool)
    ensures Seqs.Count(s + [x], p) == Seqs.Count(s, p) + (if p(x) then 1 else 0)
    decreases |s|
  {
    if s != [] {
      CountSnoc(s[1..], x, p);
      assert (s + [x])[1..] == s[1..] + [x];
    }
  }

  /** A store that raised contributes exactly what a store with no rows does. */
  lemma {:induction false} RaisedLikeEmpty(outcomes: seq<SourceOutcome>, i: nat, msg: string, n: nat)
    requires i < n <= |SiteNames| && n <= |outcomes| && outcomes[i] == Raised(msg)
    ensures var emptied := outcomes[i := Returned([])];
      MergeUpTo(outcomes, n).Success? <==> MergeUpTo(emptied, n).Success?
    ensures var emptied := outcomes[i := Returned([])];
      MergeUpTo(outcomes, n).Success? ==> MergeUpTo(outcomes, n).value.items == MergeUpTo(emptied, n).value.items
    decreases n
  {
    var emptied := outcomes[i := Returned([])];
    if n == i + 1 {
      SamePrefix(outcomes, emptied, i);
    } else {
      RaisedLikeEmpty(outcomes, i, msg, n - 1);
    }
  }

  /** Two outcome lists that agree on the first n stores merge alike. */
  lemma {:induction false} SamePrefix(a: seq<SourceOutcome>, b: seq<SourceOutcome>, n: nat)
    requires n <= |SiteNames| && n <= |a| && n <= |b| && a[..n] == b[..n]
    ensures MergeUpTo(a, n) == MergeUpTo(b, n)
  {
    if n > 0 {
      assert a[..n - 1] == b[..n - 1];
      assert a[n - 1] == a[..n][n - 1];
      SamePrefix(a, b, n - 1);
    }
  }

  // ---------------------------------------------------------------------------
  // Discount filter and reply
  // ---------------------------------------------------------------------------

  /** The maximum discount a payload asks for; None when the filter is off:
      no value, "", 0, "0", False, or a value without a number. A number
      reads as its magnitude, since the filter searches its digits. */
  function DiscountThreshold(raw: Json): (r: Option<real>)
    ensures raw == JNull || raw == JStr("") || raw == JStr("0") || raw == JNum(0.0) || raw == JBool(false)
            ==> r.None?
    ensures r.Some? ==> r.value >= 0.0
    ensures raw.JStr? && raw.s != "0" ==> r == FirstDecimalNumber(raw.s)
  {
    match raw
    case JNull => None
    case JBool(_) => None      // False equals 0; str(True) has no digit
    case JNum(x) => if x == 0.0 then None else if x < 0.0 then Some(-x) else Some(x)
    case JStr(s) => if s == "" || s == "0" then None else FirstDecimalNumber(s)
  }

  /** The filter's condition: a known discount no larger than the threshold. */
  function AtMost(t: real): Deal -> bool {
    (d: Deal) => d.discountPercent.Some? && d.discountPercent.value <= t
  }

  /** The list after the discount filter. */
  function ApplyDiscountFilter(items: seq<Deal>, raw: Json): (r: seq<Deal>)
    ensures |r| <= |items|
    ensures DiscountThreshold(raw).None? ==> r == items
    ensures DiscountThreshold(raw).Some? ==>
      forall i :: 0 <= i < |r| ==> r[i].discountPercent.Some? && r[i].discountPercent.value <= DiscountThreshold(raw).value
  {
    match DiscountThreshold(raw)
    case None => items
    case Some(t) => Seqs.Filter(items, AtMost(t))
  }

  /** The filter keeps, in order, exactly the deals with a known discount at
      most the threshold, and everything when there is no threshold. */
  lemma DiscountFilterKeeps(items: seq<Deal>, raw: Json, d: Deal)
    ensures Seqs.IsSubsequence(ApplyDiscountFilter(items, raw), items)
    ensures d in ApplyDiscountFilter(items, raw) <==>
      d in items && (DiscountThreshold(raw).None?
                     || (d.discountPercent.Some? && d.discountPercent.value <= DiscountThreshold(raw).value))
  {
    match DiscountThreshold(raw)
    case None =>
      Seqs.FilterIsSubsequence(items, (x: Deal) => true);
      SelfSubsequence(items);
    case Some(t) =>
      Seqs.FilterIsSubsequence(items, AtMost(t));
      Seqs.FilterMembership(items, AtMost(t), d);
  }

  lemma {:induction false} SelfSubsequence<T>(s: seq<T>)
    ensures Seqs.IsSubsequence(s, s)
    decreases |s|
  {
    if s != [] {
      SelfSubsequence(s[1..]);
    }
  }

  /** A deal whose zero discount was dropped to None never passes a filter. */
  lemma UnknownDiscountFiltered(items: seq<Deal>, raw: Json, d: Deal)
    requires DiscountThreshold(raw).Some? && d.discountPercent.None?
    ensures d !in ApplyDiscountFilter(items, raw)
  {
    DiscountFilterKeeps(items, raw, d);
  }

  /** The JSON body of the scrape endpoint: a success reply, or the 500 error. */
  datatype ScrapeReply =
    | ScrapeSuccess(keyword: Json, countAll: nat, siteErrors: seq<SiteError>, items: seq<Deal>)
    | ScrapeServerError

  /** `payload.get("keyword", "laptop")`. */
  function KeywordOf(payload: Row): Json {
    if "keyword" in payload then payload["keyword"] else JStr("laptop")
  }

  /** The reply for a payload and the three stores' outcomes. */
  function ScrapeReplyFor(payload: Row, outcomes: seq<SourceOutcome>): (r: ScrapeReply)
    ensures r.ScrapeSuccess? ==> r.countAll == |r.items|
  {
    match MergeUpTo(outcomes, Paired(outcomes))
    case Failure => ScrapeServerError
    case Success(m) =>
      var items := ApplyDiscountFilter(m.items, Get(payload, "discount"));
      ScrapeSuccess(KeywordOf(payload), |items|, m.errors, items)
  }

  /** `api_scrape` after the scrapers have run. */
  method ApiScrape(payload: Row, outcomes: seq<SourceOutcome>) returns (reply: ScrapeReply)
    ensures reply == ScrapeReplyFor(payload, outcomes)
    ensures reply.ScrapeSuccess? ==> reply.countAll == |reply.items|
  {
    var merged := Merge(outcomes);
    if merged.Failure? {
      return ScrapeServerError;
    }
    var combined := ApplyDiscountFilter(merged.value.items, Get(payload, "discount"));
    return ScrapeSuccess(KeywordOf(payload), |combined|, merged.value.errors, combined);
  }

  /** When every store raises the reply still succeeds, with no deals and one
      error per store. */
  lemma AllStoresFailed(payload: Row, a: string, b: string, c: string)
    ensures var r := ScrapeReplyFor(payload, [Raised(a), Raised(b), Raised(c)]);
      r.ScrapeSuccess? && r.items == [] && r.countAll == 0
      && r.siteErrors == [SiteError("amazon", a), SiteError("flipkart", b), SiteError("nykaa", c)]
  {
    var o := [Raised(a), Raised(b), Raised(c)];
    MergeRaised(o, 0, [], []);
    assert SiteNames[0] == "amazon" && SiteNames[1] == "flipkart";
    assert [] + [SiteError("amazon", a)] == [SiteError("amazon", a)];
    MergeRaised(o, 1, [], [SiteError("amazon", a)]);
    assert [SiteError("amazon", a)] + [SiteError("flipkart", b)] == [SiteError("amazon", a), SiteError("flipkart", b)];
    MergeRaised(o, 2, [], [SiteError("amazon", a), SiteError("flipkart", b)]);
  }
}
