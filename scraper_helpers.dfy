/** The string helpers at the top of backend/scrapers.py: URL resolution,
    price parsing and display, and the discount sanity check. */
module ScraperHelpers {
  import opened Wrappers
  import opened Text
  import Seqs

  // ---------------------------------------------------------------------
  // Rounding (Python's round(), which rounds halves to even)
  // ---------------------------------------------------------------------

  /** Python's `round(x)`: the nearest integer, halves going to the even one. */
  function RoundHalfEven(x: real): (n: int)
    ensures x - 0.5 <= n as real <= x + 0.5
    ensures (n as real - x == 0.5 || x - n as real == 0.5) ==> n % 2 == 0
  {
    var f := x.Floor;
    var frac := x - f as real;
    if frac < 0.5 then f
    else if frac > 0.5 then f + 1
    else if f % 2 == 0 then f
    else f + 1
  }

  /** Python's `round(x, 2)`: the nearest multiple of 0.01, halves to even. */
  function Round2(x: real): (r: real)
    ensures x - 0.005 <= r <= x + 0.005
  {
    RoundHalfEven(x * 100.0) as real / 100.0
  }

  // ---------------------------------------------------------------------
  // make_absolute_url
  // ---------------------------------------------------------------------

  predicate IsC0OrSpace(c: char) { c <= ' ' }

  predicate IsUnsafeUrlChar(c: char) { c == '\t' || c == '\r' || c == '\n' }

  predicate IsSafeUrlChar(c: char) { !IsUnsafeUrlChar(c) }

  predicate IsColon(c: char) { c == ':' }

  /** The characters `urlsplit` accepts in a scheme. */
  predicate IsSchemeChar(c: char) {
    IsAsciiLetter(c) || IsDigit(c) || c == '+' || c == '-' || c == '.'
  }

  /** What `urlsplit` (Python 3.11 and later) parses: the text without leading
      C0 controls and spaces and without any tab, CR or LF. */
  function CleanUrl(h: string): string {
    Seqs.Filter(LStrip(h, IsC0OrSpace), IsSafeUrlChar)
  }

  /** `u` starts with `letter schemechar* ":"` followed by `"//"` and a host
      character (not `/`, `?` or `#`). */
  predicate SchemeAndHost(u: string) {
    var i := IndexWhere(u, IsColon);
    0 < i < |u| && IsAsciiLetter(u[0]) && (forall k :: 0 <= k < i ==> IsSchemeChar(u[k]))
    && |u| >= i + 4 && u[i + 1] == '/' && u[i + 2] == '/' && u[i + 3] !in "/?#"
  }

  /** `urlparse(h)` finds both a scheme and a non-empty network location. */
  predicate HasSchemeAndHost(h: string) {
    SchemeAndHost(CleanUrl(h))
  }

  /** make_absolute_url(base, href); `join` stands for `urllib.parse.urljoin`. */
  function MakeAbsoluteUrl(base: string, href: string, join: (string, string) -> string): (r: Option<string>)
    ensures r.None? <==> href == []
    ensures href != [] && StartsWith(PyStrip(href), "//") ==> r == Some("https:" + PyStrip(href))
    ensures href != [] && HasSchemeAndHost(PyStrip(href)) ==> r == Some(PyStrip(href))
  {
    if href == [] then None
    else
      var h := PyStrip(href);
      if StartsWith(h, "//") then
        SlashesHaveNoScheme(h);
        Some("https:" + h)
      else if HasSchemeAndHost(h) then Some(h)
      else Some(join(base, h))
  }

  /** A network-path reference has no scheme of its own. */
  lemma SlashesHaveNoScheme(h: string)
    requires StartsWith(h, "//")
    ensures !HasSchemeAndHost(h)
  {
    assert h[0] == '/';
    assert LStrip(h, IsC0OrSpace) == h;
    FilterKeepsSlash(h);
    assert CleanUrl(h)[0] == '/';
  }

  lemma FilterKeepsSlash(h: string)
    requires |h| > 0 && h[0] == '/'
    ensures Seqs.Filter(h, IsSafeUrlChar)[0] == '/'
  {
    assert h == [h[0]] + h[1..];
    Seqs.FilterAppend([h[0]], h[1..], IsSafeUrlChar);
  }

  /** The text `PyStrip` returns neither starts nor ends with white space. */
  lemma StrippedEnds(s: string)
    ensures var h := PyStrip(s); h != [] ==> !IsPySpace(h[0]) && !IsPySpace(h[|h| - 1])
  {
    var l := LStrip(s, IsPySpace);
    var h := RStrip(l, IsPySpace);
    if h != [] {
      assert h[0] == l[0];
    }
  }

  /** A URL that already has a scheme and a host, and no white space around it,
      comes back unchanged whatever the base and the joiner. */
  lemma AbsoluteUrlIsFixpoint(u: string, base: string, join: (string, string) -> string)
    requires u != [] && PyStrip(u) == u && HasSchemeAndHost(u)
    ensures MakeAbsoluteUrl(base, u, join) == Some(u)
  {
  }

  /** A network-path reference (`//host/...`) resolves to an `https:` URL that a
      second resolution, against any base, leaves unchanged. */
  lemma {:induction false} NetworkPathResolvesOnce(base: string, href: string, join: (string, string) -> string,
                                                   base2: string, join2: (string, string) -> string)
    requires href != [] && StartsWith(PyStrip(href), "//")
    requires HasSchemeAndHost("https:" + PyStrip(href))
    ensures MakeAbsoluteUrl(base, href, join) == Some("https:" + PyStrip(href))
    ensures MakeAbsoluteUrl(base2, "https:" + PyStrip(href), join2) == MakeAbsoluteUrl(base, href, join)
  {
    var h := PyStrip(href);
    assert MakeAbsoluteUrl(base2, "https:" + h, join2) == Some("https:" + h) by {
      assert |h| >= 2 && h[0] == h[..2][0] == '/';
      StrippedEnds(href);
      HttpsFixpoint(h, base2, join2);
    }
  }

  /** `https:` followed by a stripped `//...` reference resolves to itself. */
  lemma HttpsFixpoint(h: string, base: string, join: (string, string) -> string)
    requires |h| >= 2 && h[0] == '/' && !IsPySpace(h[|h| - 1]) && HasSchemeAndHost("https:" + h)
    ensures MakeAbsoluteUrl(base, "https:" + h, join) == Some("https:" + h)
  {
    var u := "https:" + h;
    assert u[0] == 'h' && u[|u| - 1] == h[|h| - 1];
    StripUnchanged(u, IsPySpace);
    AbsoluteUrlIsFixpoint(u, base, join);
  }

  // ---------------------------------------------------------------------
  // parse_price_to_number
  // ---------------------------------------------------------------------

  predicate IsNumberChar(c: char) { IsDigit(c) || c == '.' || c == '-' }

  /** Python's `float(t)` for a string `t` made of digits, `.` and `-` only:
      an optional leading `-` and then `digits[.digits]` or `.digits`;
      anything else raises ValueError (None here). */
  function PyFloat(t: string): (r: Option<real>)
    ensures r.Some? ==> t != []
  {
    var neg := t != [] && t[0] == '-';
    var body := if neg then t[1..] else t;
    var whole := PrefixWhile(body, IsDigit);
    var rest := body[|whole|..];
    if rest == [] then
      (if whole == [] then None
       else Some(if neg then -(DigitsValue(whole) as real) else DigitsValue(whole) as real))
    else if rest[0] == '.' && AllDigits(rest[1..]) && (whole != [] || |rest| > 1) then
      var v := DecimalValue(whole, rest[1..]);
      Some(if neg then -v else v)
    else None
  }

  /** parse_price_to_number(price); the empty string stands for both `None` and "". */
  function ParsePriceToNumber(price: string): (r: Option<real>)
    ensures price != [] ==> r == PyFloat(Seqs.Filter(price, IsNumberChar))
    ensures price == [] ==> r == None
  {
    if price == [] then None
    else
      var s := RemoveCommas(ReplaceChar(price, NBSP, ' '));
      NumberCharsIgnoreSeparators(price);
      PyFloat(Seqs.Filter(s, IsNumberChar))
  }

  /** Replacing NBSP by a space and deleting commas does not change the digits,
      dots and minus signs of a text, nor their order. */
  lemma {:induction false} NumberCharsIgnoreSeparators(s: string)
    ensures Seqs.Filter(RemoveCommas(ReplaceChar(s, NBSP, ' ')), IsNumberChar) == Seqs.Filter(s, IsNumberChar)
  {
    if s != [] {
      var t := ReplaceChar(s, NBSP, ' ');
      assert t == [t[0]] + ReplaceChar(s[1..], NBSP, ' ');
      NumberCharsIgnoreSeparators(s[1..]);
      Seqs.FilterAppend([t[0]], ReplaceChar(s[1..], NBSP, ' '), IsNotComma);
      Seqs.FilterAppend(Seqs.Filter([t[0]], IsNotComma), RemoveCommas(ReplaceChar(s[1..], NBSP, ' ')), IsNumberChar);
    }
  }

  lemma {:induction false} DigitsAreNumberChars(ds: string)
    requires AllDigits(ds)
    ensures Seqs.Filter(ds, IsNumberChar) == ds
  {
    if ds != [] {
      DigitsAreNumberChars(ds[1..]);
      assert ds == [ds[0]] + ds[1..];
    }
  }

  lemma PyFloatOfDigits(ds: string)
    requires ds != [] && AllDigits(ds)
    ensures PyFloat(ds) == Some(DigitsValue(ds) as real)
  {
    assert PrefixWhile(ds, IsDigit) == ds;
  }

  /** Separator style does not matter: a whole price written with thousands
      separators, behind any currency prefix free of digits, dots, minus signs
      and commas, parses to the number it writes (e.g. "₹1,299" gives 1299). */
  lemma {:induction false} ParseGroupedPrice(prefix: string, n: nat)
    requires forall i :: 0 <= i < |prefix| ==> !IsNumberChar(prefix[i]) && prefix[i] != ','
    ensures ParsePriceToNumber(prefix + WithCommas(n)) == Some(n as real)
  {
    var ds := NatDigits(n);
    var g := GroupThousands(ds);
    assert WithCommas(n) == g;
    assert Seqs.Filter(prefix, IsNumberChar) == [] by { NoNumberChars(prefix); }
    Seqs.FilterAppend(prefix, g, IsNumberChar);
    assert Seqs.Filter(prefix + g, IsNumberChar) == Seqs.Filter(g, IsNumberChar);
    GroupThousandsRoundTrip(ds);
    NumberCharsSkipCommas(g);
    DigitsAreNumberChars(ds);
    assert Seqs.Filter(g, IsNumberChar) == ds;
    PyFloatOfDigits(ds);
    assert prefix + g != [];
    assert ParsePriceToNumber(prefix + g) == PyFloat(ds);
  }

  lemma {:induction false} NoNumberChars(s: string)
    requires forall i :: 0 <= i < |s| ==> !IsNumberChar(s[i])
    ensures Seqs.Filter(s, IsNumberChar) == []
  {
    if s != [] { NoNumberChars(s[1..]); }
  }

  lemma {:induction false} NumberCharsSkipCommas(s: string)
    ensures Seqs.Filter(s, IsNumberChar) == Seqs.Filter(RemoveCommas(s), IsNumberChar)
  {
    if s != [] {
      NumberCharsSkipCommas(s[1..]);
      Seqs.FilterAppend(Seqs.Filter([s[0]], IsNotComma), RemoveCommas(s[1..]), IsNumberChar);
    }
  }

  /** A price with thousands separators and a decimal part, behind a currency
      prefix free of digits, dots, minus signs and commas, parses to the
      number it writes. */
  lemma {:induction false} ParseGroupedDecimal(prefix: string, n: nat, frac: string)
    requires forall i :: 0 <= i < |prefix| ==> !IsNumberChar(prefix[i]) && prefix[i] != ','
    requires AllDigits(frac)
    ensures ParsePriceToNumber(prefix + WithCommas(n) + "." + frac) == Some(DecimalValue(NatDigits(n), frac))
  {
    var x := prefix + WithCommas(n) + "." + frac;
    assert x != [] by { assert |x| >= 1 + |frac|; }
    GroupedDecimalChars(prefix, n, frac);
    PyFloatDecimal(NatDigits(n), frac);
  }

  /** The digits, dots and minus signs of a grouped decimal price behind such a
      prefix are the number's digits, the dot and the decimals. */
  lemma GroupedDecimalChars(prefix: string, n: nat, frac: string)
    requires forall i :: 0 <= i < |prefix| ==> !IsNumberChar(prefix[i]) && prefix[i] != ','
    requires AllDigits(frac)
    ensures Seqs.Filter(prefix + WithCommas(n) + "." + frac, IsNumberChar) == NatDigits(n) + ("." + frac)
  {
    var ds := NatDigits(n);
    var g := GroupThousands(ds);
    var tail := "." + frac;
    assert WithCommas(n) == g;
    assert prefix + WithCommas(n) + "." + frac == prefix + (g + tail);
    assert Seqs.Filter(prefix, IsNumberChar) == [] by { NoNumberChars(prefix); }
    Seqs.FilterAppend(prefix, g + tail, IsNumberChar);
    Seqs.FilterAppend(g, tail, IsNumberChar);
    assert Seqs.Filter(g, IsNumberChar) == ds by {
      GroupThousandsRoundTrip(ds);
      NumberCharsSkipCommas(g);
      DigitsAreNumberChars(ds);
    }
    assert Seqs.Filter(tail, IsNumberChar) == tail by {
      assert tail == ['.'] + frac;
      Seqs.FilterAppend(['.'], frac, IsNumberChar);
      DigitsAreNumberChars(frac);
    }
  }

  /** `float("digits.digits")` is the decimal value it writes. */
  lemma PyFloatDecimal(ds: string, frac: string)
    requires ds != [] && AllDigits(ds) && AllDigits(frac)
    ensures PyFloat(ds + ("." + frac)) == Some(DecimalValue(ds, frac))
  {
    var tail := "." + frac;
    var t := ds + tail;
    assert PrefixWhile(t, IsDigit) == ds by { DigitRunBeforeDot(ds, tail); }
    assert t[|ds|..] == tail;
    assert tail[1..] == frac;
  }

  lemma {:induction false} DigitRunBeforeDot(ds: string, tail: string)
    requires AllDigits(ds) && tail != [] && tail[0] == '.'
    ensures PrefixWhile(ds + tail, IsDigit) == ds
  {
    if ds != [] {
      assert (ds + tail)[1..] == ds[1..] + tail;
      DigitRunBeforeDot(ds[1..], tail);
    }
  }

  /** "1,299.00" parses to 1299. */
  lemma ParsePriceExample()
    ensures ParsePriceToNumber("1,299.00") == Some(1299.0)
  {
    ParseGroupedDecimal("", 1299, "00");
    Written1299();
    Value1299();
  }

  lemma Written1299()
    ensures "" + WithCommas(1299) + "." + "00" == "1,299.00"
  {
    Grouped1299();
  }

  lemma Value1299()
    ensures DecimalValue(NatDigits(1299), "00") == 1299.0
  {
    assert DigitsValue("00") == 0 by { assert "00"[..1] == "0"; }
    assert DigitsValue(NatDigits(1299)) == 1299;
  }

  lemma Grouped1299()
    ensures WithCommas(1299) == "1,299"
  {
    Digits1299();
    assert "1299"[..1] == "1";
    assert "1299"[1..] == "299";
  }

  lemma Digits1299()
    ensures NatDigits(1299) == "1299"
  {
    Digits129();
    assert 1299 / 10 == 129;
  }

  lemma Digits129()
    ensures NatDigits(129) == "129"
  {
    Digits12();
    assert 129 / 10 == 12;
  }

  lemma Digits12()
    ensures NatDigits(12) == "12"
  {
    assert NatDigits(1) == "1";
    assert 12 / 10 == 1 && 12 % 10 == 2;
  }

  // ---------------------------------------------------------------------
  // normalize_display_price
  // ---------------------------------------------------------------------

  predicate IsDigitOrComma(c: char) { IsDigit(c) || c == ',' }

  predicate IsDot(c: char) { c == '.' }

  /** `t` has the shape `[\d,]+(\.\d+)?`. */
  predicate IsPriceToken(t: string) {
    var d := IndexWhere(t, IsDot);
    d > 0 && (forall k :: 0 <= k < d ==> IsDigitOrComma(t[k]))
    && (d == |t| || (d + 1 < |t| && AllDigits(t[d + 1..])))
  }

  /** No longer token of that shape starts where `t` starts in `s` at index `i`:
      the character after it continues neither the run nor the decimal tail. */
  predicate EndsMaximally(s: string, i: nat, t: string)
    requires i + |t| <= |s|
  {
    var e := i + |t|;
    e == |s|
    || (if IndexWhere(t, IsDot) < |t| then !IsDigit(s[e])
        else !IsDigitOrComma(s[e]) && !(s[e] == '.' && e + 1 < |s| && IsDigit(s[e + 1])))
  }

  /** The longest token of shape `[\d,]+(\.\d+)?` that starts at index `i` of `s`. */
  function PriceTokenAt(s: string, i: nat): (t: string)
    requires i < |s| && IsDigitOrComma(s[i])
    ensures IsPriceToken(t) && i + |t| <= |s| && s[i..i + |t|] == t && EndsMaximally(s, i, t)
  {
    var run := PrefixWhile(s[i..], IsDigitOrComma);
    var e := i + |run|;
    if e + 1 < |s| && s[e] == '.' && IsDigit(s[e + 1]) then
      var frac := PrefixWhile(s[e + 1..], IsDigit);
      FracToken(s, i, run, frac);
      run + "." + frac
    else
      RunToken(s, i, run);
      run
  }

  lemma RunToken(s: string, i: nat, run: string)
    requires i < |s| && IsDigitOrComma(s[i]) && run == PrefixWhile(s[i..], IsDigitOrComma)
    requires var e := i + |run|; !(e + 1 < |s| && s[e] == '.' && IsDigit(s[e + 1]))
    ensures IsPriceToken(run) && i + |run| <= |s| && s[i..i + |run|] == run && EndsMaximally(s, i, run)
  {
    assert IndexWhere(run, IsDot) == |run|;
  }

  lemma FracToken(s: string, i: nat, run: string, frac: string)
    requires i < |s| && IsDigitOrComma(s[i]) && run == PrefixWhile(s[i..], IsDigitOrComma)
    requires var e := i + |run|; e + 1 < |s| && s[e] == '.' && IsDigit(s[e + 1])
    requires frac == PrefixWhile(s[i + |run| + 1..], IsDigit)
    ensures var t := run + "." + frac;
      IsPriceToken(t) && i + |t| <= |s| && s[i..i + |t|] == t && EndsMaximally(s, i, t)
  {
    var t := run + "." + frac;
    assert |frac| > 0;
    assert IndexWhere(t, IsDot) == |run| by {
      assert t == run + ("." + frac);
      IndexPastRun(run, "." + frac);
    }
    assert t[|run| + 1..] == frac;
    assert IsPriceToken(t);
    assert s[i..i + |t|] == t by { SliceOfParts(s, i, run, frac); }
  }

  lemma SliceOfParts(s: string, i: nat, run: string, frac: string)
    requires i + |run| + 1 + |frac| <= |s|
    requires s[i..i + |run|] == run && s[i + |run|] == '.'
    requires s[i + |run| + 1..][..|frac|] == frac
    ensures s[i..i + |run| + 1 + |frac|] == run + "." + frac
  {
    var t := run + "." + frac;
    forall k | 0 <= k < |t| ensures s[i + k] == t[k] {
      if k > |run| {
        assert s[i + |run| + 1..][k - |run| - 1] == frac[k - |run| - 1];
      }
    }
  }

  lemma IndexPastRun(run: string, rest: string)
    requires forall k :: 0 <= k < |run| ==> IsDigitOrComma(run[k])
    requires rest != [] && rest[0] == '.'
    ensures IndexWhere(run + rest, IsDot) == |run|
  {
    if run != [] {
      assert (run + rest)[1..] == run[1..] + rest;
      IndexPastRun(run[1..], rest);
    }
  }

  /** normalize_display_price(price_text): the leftmost longest match of
      `[\d,]+(\.\d+)?`, or "N/A" when the text is empty or has no digit or comma. */
  function NormalizeDisplayPrice(text: string): (r: string)
    ensures r == "N/A" <==> (forall k :: 0 <= k < |text| ==> !IsDigitOrComma(text[k]))
    ensures r != "N/A" ==>
      var i := IndexWhere(text, IsDigitOrComma);
      IsPriceToken(r) && i + |r| <= |text| && text[i..i + |r|] == r && EndsMaximally(text, i, r)
  {
    if text == [] then "N/A"
    else
      var s := ReplaceChar(text, NBSP, ' ');
      var i := IndexWhere(s, IsDigitOrComma);
      NbspKeepsIndex(text);
      if i == |s| then "N/A"
      else
        NbspToken(text, s, i);
        PriceTokenAt(s, i)
  }

  /** Replacing NBSP leaves the first digit or comma where it was. */
  lemma NbspKeepsIndex(text: string)
    ensures |ReplaceChar(text, NBSP, ' ')| == |text|
    ensures IndexWhere(ReplaceChar(text, NBSP, ' '), IsDigitOrComma) == IndexWhere(text, IsDigitOrComma)
  {
    SameIndex(text, ReplaceChar(text, NBSP, ' '), IsDigitOrComma);
  }

  /** The token found after replacing NBSP is a token of the original text,
      and never "N/A". */
  lemma NbspToken(text: string, s: string, i: nat)
    requires s == ReplaceChar(text, NBSP, ' ') && i < |s| && IsDigitOrComma(s[i])
    ensures var r := PriceTokenAt(s, i);
      r != "N/A" && IsPriceToken(r) && i + |r| <= |text| && text[i..i + |r|] == r && EndsMaximally(text, i, r)
  {
    var r := PriceTokenAt(s, i);
    TokenIgnoresNbsp(text, i, r);
    assert IsDigitOrComma(r[0]);
  }

  /** A token found after replacing NBSP by a space sits, unchanged and just as
      maximal, in the original text. */
  lemma TokenIgnoresNbsp(text: string, i: nat, t: string)
    requires var s := ReplaceChar(text, NBSP, ' ');
      IsPriceToken(t) && i + |t| <= |s| && s[i..i + |t|] == t && EndsMaximally(s, i, t)
    ensures text[i..i + |t|] == t && EndsMaximally(text, i, t)
  {
    var s := ReplaceChar(text, NBSP, ' ');
    forall k | i <= k < i + |t| ensures text[k] == s[k] {
      assert s[k] == t[k - i];
      assert IsDigitOrComma(t[k - i]) || t[k - i] == '.' by {
        var d := IndexWhere(t, IsDot);
        if d < k - i { assert AllDigits(t[d + 1..]); assert t[k - i] == t[d + 1..][k - i - d - 1]; }
      }
    }
  }

  /** Replacing NBSP (neither a digit nor a comma) leaves the first digit or comma in place. */
  lemma {:induction false} SameIndex(text: string, s: string, p: char -> bool)
    requires |s| == |text|
    requires forall k :: 0 <= k < |text| ==> (p(text[k]) <==> p(s[k]))
    ensures IndexWhere(text, p) == IndexWhere(s, p)
  {
    if text != [] && !p(text[0]) {
      SameIndex(text[1..], s[1..], p);
    }
  }

  /** A number written with thousands separators is displayed exactly as written. */
  lemma DisplayGroupedPrice(n: nat)
    ensures NormalizeDisplayPrice(WithCommas(n)) == WithCommas(n)
  {
    DisplayOfRun(WithCommas(n));
  }

  /** A text made of digits and commas only is displayed whole. */
  lemma DisplayOfRun(g: string)
    requires g != [] && forall k :: 0 <= k < |g| ==> IsDigitOrComma(g[k])
    ensures NormalizeDisplayPrice(g) == g
  {
    var r := NormalizeDisplayPrice(g);
    assert r != "N/A" by { assert IsDigitOrComma(g[0]); }
    assert IndexWhere(g, IsDigitOrComma) == 0;
    assert |r| == |g|;
  }

  // ---------------------------------------------------------------------
  // _sanitize_discount
  // ---------------------------------------------------------------------

  /** Python truthiness of an optional float: present and non-zero. */
  predicate Truthy(x: Option<real>) { x.Some? && x.value != 0.0 }

  /** The percentage saved, rounded to two places, when `original` is the
      price before the discount. */
  function PercentOff(price: real, original: real): real
    requires original != 0.0
  {
    Round2((original - price) / original * 100.0)
  }

  /** The discount recomputed from the two price texts, when both parse to
      non-zero numbers and the original is positive and above the price. */
  function RecomputedDiscount(priceText: string, origText: string): (r: Option<real>)
    ensures r.Some? <==>
      var p, o := ParsePriceToNumber(priceText), ParsePriceToNumber(origText);
      Truthy(p) && Truthy(o) && o.value > 0.0 && o.value > p.value
    ensures r.Some? ==>
      var p, o := ParsePriceToNumber(priceText).value, ParsePriceToNumber(origText).value;
      r.value == PercentOff(p, o) && o > 0.0
  {
    var p := ParsePriceToNumber(priceText);
    var o := ParsePriceToNumber(origText);
    if Truthy(o) && Truthy(p) && o.value > 0.0 && o.value > p.value then
      Some(PercentOff(p.value, o.value))
    else None
  }

  predicate InRange(d: Option<real>) { d.Some? && 0.0 <= d.value <= 95.0 }

  /** _sanitize_discount(discount_percent, price_text, orig_text). */
  function SanitizeDiscount(discount: Option<real>, priceText: string, origText: string): (r: Option<real>)
    ensures r.None? || 0.0 <= r.value <= 95.0
    ensures InRange(discount) ==> r == discount
    ensures r.Some? && r != discount ==> r == RecomputedDiscount(priceText, origText)
  {
    var d := if discount.None? then RecomputedDiscount(priceText, origText) else discount;
    if d.None? then None
    else if 0.0 <= d.value <= 95.0 then d
    else
      var again := RecomputedDiscount(priceText, origText);
      if again.Some? && 0.0 <= again.value <= 95.0 then again else None
  }

  /** The two recomputation attempts of the source amount to one decision:
      keep a supplied in-range discount, else use an in-range recomputed one,
      else nothing. */
  lemma SanitizeDecision(discount: Option<real>, priceText: string, origText: string)
    ensures SanitizeDiscount(discount, priceText, origText) ==
      if InRange(discount) then discount
      else if InRange(RecomputedDiscount(priceText, origText)) then RecomputedDiscount(priceText, origText)
      else None
  {
  }

  /** Sanitizing a sanitized discount changes nothing. */
  lemma SanitizeIdempotent(discount: Option<real>, priceText: string, origText: string)
    ensures var once := SanitizeDiscount(discount, priceText, origText);
            SanitizeDiscount(once, priceText, origText) == once
  {
    SanitizeDecision(discount, priceText, origText);
  }
}
