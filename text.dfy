/** Characters and strings as the Python backend and the JavaScript client
    treat them: digit runs, white space, ASCII case folding, substrings and
    the decimal notation of numbers. */
module Text {
  import Seqs
  import opened Wrappers

  const NBSP: char := '\U{00A0}'

  predicate IsDigit(c: char) { '0' <= c <= '9' }

  predicate IsAsciiLetter(c: char) { 'a' <= c <= 'z' || 'A' <= c <= 'Z' }

  predicate AllDigits(s: string) { forall i :: 0 <= i < |s| ==> IsDigit(s[i]) }

  function DigitValue(c: char): (d: nat)
    requires IsDigit(c)
    ensures d < 10
  {
    c as int - '0' as int
  }

  function DigitChar(d: nat): (c: char)
    requires d < 10
    ensures IsDigit(c) && DigitValue(c) == d
  {
    ('0' as int + d) as char
  }

  /** Python's `str.isspace()`, which `str.strip()` removes from both ends. */
  predicate IsPySpace(c: char) {
    ('\t' <= c <= '\r') || ('\U{001C}' <= c <= ' ') || c == '\U{0085}' || c == NBSP
    || c == '\U{1680}' || ('\U{2000}' <= c <= '\U{200A}') || c == '\U{2028}' || c == '\U{2029}'
    || c == '\U{202F}' || c == '\U{205F}' || c == '\U{3000}'
  }

  /** JavaScript's WhiteSpace and LineTerminator, which `String.prototype.trim`
      and `parseInt` skip. */
  predicate IsJsSpace(c: char) {
    ('\t' <= c <= '\r') || c == ' ' || c == NBSP || c == '\U{FEFF}'
    || c == '\U{1680}' || ('\U{2000}' <= c <= '\U{200A}') || c == '\U{2028}' || c == '\U{2029}'
    || c == '\U{202F}' || c == '\U{205F}' || c == '\U{3000}'
  }

  function LowerChar(c: char): (d: char)
    ensures IsAsciiLetter(c) ==> 'a' <= d <= 'z'
    ensures !('A' <= c <= 'Z') ==> d == c
  {
    if 'A' <= c <= 'Z' then (c as int + 32) as char else c
  }

  /** `str.lower()` / `String.prototype.toLowerCase()` on the ASCII range. */
  function Lower(s: string): (r: string)
    ensures |r| == |s|
    ensures forall i :: 0 <= i < |s| ==> r[i] == LowerChar(s[i])
  {
    seq(|s|, i requires 0 <= i < |s| => LowerChar(s[i]))
  }

  lemma LowerIdempotent(s: string)
    ensures Lower(Lower(s)) == Lower(s)
  {
  }

  predicate StartsWith(s: string, prefix: string) {
    |prefix| <= |s| && s[..|prefix|] == prefix
  }

  /** `sub in s` in Python, `s.includes(sub)` in JavaScript. */
  predicate Contains(s: string, sub: string)
    decreases |s|
  {
    StartsWith(s, sub) || (s != [] && Contains(s[1..], sub))
  }

  /** The longest prefix of `s` whose characters all satisfy `p`. */
  function PrefixWhile(s: string, p: char -> bool): (r: string)
    ensures |r| <= |s| && r == s[..|r|]
    ensures forall i :: 0 <= i < |r| ==> p(r[i])
    ensures |r| < |s| ==> !p(s[|r|])
  {
    if s != [] && p(s[0]) then [s[0]] + PrefixWhile(s[1..], p) else []
  }

  /** The index of the first character of `s` that satisfies `p`, or `|s|`. */
  function IndexWhere(s: string, p: char -> bool): (i: nat)
    ensures i <= |s|
    ensures forall k :: 0 <= k < i ==> !p(s[k])
    ensures i < |s| ==> p(s[i])
  {
    if s == [] then 0 else if p(s[0]) then 0 else 1 + IndexWhere(s[1..], p)
  }

  /** Drops the characters satisfying `sp` from the front of `s`. */
  function LStrip(s: string, sp: char -> bool): (r: string)
    ensures |r| <= |s| && r == s[|s| - |r|..]
    ensures forall i :: 0 <= i < |s| - |r| ==> sp(s[i])
    ensures r != [] ==> !sp(r[0])
  {
    if s != [] && sp(s[0]) then LStrip(s[1..], sp) else s
  }

  /** Drops the characters satisfying `sp` from the end of `s`. */
  function RStrip(s: string, sp: char -> bool): (r: string)
    ensures |r| <= |s| && r == s[..|r|]
    ensures forall i :: |r| <= i < |s| ==> sp(s[i])
    ensures r != [] ==> !sp(r[|r| - 1])
  {
    if s != [] && sp(s[|s| - 1]) then RStrip(s[..|s| - 1], sp) else s
  }

  function Strip(s: string, sp: char -> bool): string {
    RStrip(LStrip(s, sp), sp)
  }

  /** Python's `str.strip()`. */
  function PyStrip(s: string): string { Strip(s, IsPySpace) }

  /** JavaScript's `String.prototype.trim()`. */
  function JsTrim(s: string): string { Strip(s, IsJsSpace) }

  /** A string that starts and ends with a non-space character is its own strip. */
  lemma StripUnchanged(s: string, sp: char -> bool)
    requires s != [] ==> !sp(s[0]) && !sp(s[|s| - 1])
    ensures Strip(s, sp) == s
  {
  }

  /** `s.replace(a, b)` for single characters. */
  function ReplaceChar(s: string, a: char, b: char): (r: string)
    ensures |r| == |s|
    ensures forall i :: 0 <= i < |s| ==> r[i] == if s[i] == a then b else s[i]
  {
    seq(|s|, i requires 0 <= i < |s| => if s[i] == a then b else s[i])
  }

  predicate IsNotComma(c: char) { c != ',' }

  /** `s.replace(",", "")`. */
  function RemoveCommas(s: string): string { Seqs.Filter(s, IsNotComma) }

  function Pow10(n: nat): (p: nat)
    ensures p >= 1
  {
    if n == 0 then 1 else 10 * Pow10(n - 1)
  }

  /** The natural number written by the decimal digits `ds` (0 for no digits). */
  function DigitsValue(ds: string): nat
    requires AllDigits(ds)
  {
    if ds == [] then 0 else 10 * DigitsValue(ds[..|ds| - 1]) + DigitValue(ds[|ds| - 1])
  }

  /** A number written with `n` digits is below 10^n. */
  lemma {:induction false} DigitsValueBound(ds: string)
    requires AllDigits(ds)
    ensures DigitsValue(ds) < Pow10(|ds|)
  {
    if ds != [] {
      DigitsValueBound(ds[..|ds| - 1]);
    }
  }

  /** The value of the decimal literal `whole.frac`. */
  function DecimalValue(whole: string, frac: string): (v: real)
    requires AllDigits(whole) && AllDigits(frac)
    ensures v >= DigitsValue(whole) as real
  {
    DigitsValue(whole) as real + DigitsValue(frac) as real / Pow10(|frac|) as real
  }

  /** The decimal digits of `n`, without leading zeros. */
  function NatDigits(n: nat): (ds: string)
    ensures |ds| > 0 && AllDigits(ds)
    ensures |ds| > 1 ==> ds[0] != '0'
    ensures DigitsValue(ds) == n
  {
    if n < 10 then [DigitChar(n)]
    else
      var ds := NatDigits(n / 10) + [DigitChar(n % 10)];
      assert ds[..|ds| - 1] == NatDigits(n / 10);
      ds
  }

  /** Inserts a comma before every group of three digits counted from the right. */
  function GroupThousands(ds: string): (r: string)
    requires AllDigits(ds)
    ensures |r| >= |ds|
    ensures forall i :: 0 <= i < |r| ==> IsDigit(r[i]) || r[i] == ','
    ensures ds != [] ==> r[0] == ds[0] && IsDigit(r[|r| - 1])
  {
    if |ds| <= 3 then ds
    else GroupThousands(ds[..|ds| - 3]) + [','] + ds[|ds| - 3..]
  }

  /** Python's `f"{n:,}"`: the decimal notation of `n` with thousands separators. */
  function WithCommas(n: int): string {
    if n < 0 then "-" + GroupThousands(NatDigits(-n)) else GroupThousands(NatDigits(n))
  }

  /** Deleting the separators that `GroupThousands` inserted gives back the digits. */
  lemma {:induction false} GroupThousandsRoundTrip(ds: string)
    requires AllDigits(ds)
    ensures RemoveCommas(GroupThousands(ds)) == ds
    decreases |ds|
  {
    if |ds| > 3 {
      var a, b := ds[..|ds| - 3], ds[|ds| - 3..];
      var g := GroupThousands(a);
      GroupThousandsRoundTrip(a);
      Seqs.FilterAppend(g + [','], b, IsNotComma);
      Seqs.FilterAppend(g, [','], IsNotComma);
      assert RemoveCommas([',']) == [];
      assert RemoveCommas(g + [',']) == a;
      assert RemoveCommas(b) == b by { KeepsCommaFree(b); }
      assert GroupThousands(ds) == g + [','] + b;
      assert a + b == ds;
    } else {
      KeepsCommaFree(ds);
    }
  }

  lemma {:induction false} KeepsCommaFree(s: string)
    requires forall i :: 0 <= i < |s| ==> s[i] != ','
    ensures RemoveCommas(s) == s
  {
    if s != [] {
      KeepsCommaFree(s[1..]);
      assert s == [s[0]] + s[1..];
    }
  }

  /** The first run of decimal digits in `s`, as `re.search(r"(\d+)", s)` finds it. */
  function FirstDigitRun(s: string): (r: Option<string>)
    ensures r.None? <==> forall k :: 0 <= k < |s| ==> !IsDigit(s[k])
    ensures r.Some? ==>
      var i := IndexWhere(s, IsDigit);
      r.value != [] && AllDigits(r.value) && i + |r.value| <= |s| && s[i..i + |r.value|] == r.value
      && (i + |r.value| == |s| || !IsDigit(s[i + |r.value|]))
  {
    var i := IndexWhere(s, IsDigit);
    if i == |s| then None
    else
      var run := PrefixWhile(s[i..], IsDigit);
      assert s[i..i + |run|] == run;
      Some(run)
  }

  /** The value of the first match of `\d+(\.\d+)?` in `s`, as Python's
      `float(m.group(...))` reads it; None when `s` has no digit. */
  function FirstDecimalNumber(s: string): (r: Option<real>)
    ensures r.None? <==> forall k :: 0 <= k < |s| ==> !IsDigit(s[k])
    ensures r.Some? ==> r.value >= DigitsValue(FirstDigitRun(s).value) as real
  {
    match FirstDigitRun(s)
    case None => None
    case Some(run) => Some(NumberFrom(s, IndexWhere(s, IsDigit) + |run|, run))
  }

  /** The number whose digits `run` end at `e` in `s`, with the fractional
      part that follows when a dot and a digit come next. */
  function NumberFrom(s: string, e: nat, run: string): (v: real)
    requires AllDigits(run)
    ensures v >= DigitsValue(run) as real
  {
    if e + 1 < |s| && s[e] == '.' && IsDigit(s[e + 1]) then
      DecimalValue(run, PrefixWhile(s[e + 1..], IsDigit))
    else
      DigitsValue(run) as real
  }
  /** The longest prefix of `a + b` whose characters satisfy `p` is `a`, when
      every character of `a` does and `b` does not start with one that does. */
  lemma {:induction false} PrefixWhileOf(a: string, b: string, p: char -> bool)
    requires forall k :: 0 <= k < |a| ==> p(a[k])
    requires b != [] ==> !p(b[0])
    ensures PrefixWhile(a + b, p) == a
    decreases |a|
  {
    if a != [] {
      assert (a + b)[0] == a[0] && (a + b)[1..] == a[1..] + b;
      PrefixWhileOf(a[1..], b, p);
      assert [a[0]] + a[1..] == a;
    }
  }

  /** The first character of `pre + s` satisfying `p` sits at `|pre|` when no
      character of `pre` satisfies `p` and the first of `s` does. */
  lemma IndexWhereAfter(pre: string, s: string, p: char -> bool)
    requires forall k :: 0 <= k < |pre| ==> !p(pre[k])
    requires s != [] && p(s[0])
    ensures IndexWhere(pre + s, p) == |pre|
  {
    assert (pre + s)[|pre|] == s[0];
  }

  /** `re.search(r"(\d+)", pre + ds + rest)` finds `ds` when `pre` has no digit,
      `ds` is a run of digits and `rest` does not go on with a digit. */
  lemma FirstDigitRunOf(pre: string, ds: string, rest: string)
    requires forall k :: 0 <= k < |pre| ==> !IsDigit(pre[k])
    requires ds != [] && AllDigits(ds)
    requires rest != [] ==> !IsDigit(rest[0])
    ensures IndexWhere(pre + ds + rest, IsDigit) == |pre|
    ensures FirstDigitRun(pre + ds + rest) == Some(ds)
  {
    var s := pre + ds + rest;
    assert s == pre + (ds + rest);
    assert (ds + rest)[0] == ds[0];
    IndexWhereAfter(pre, ds + rest, IsDigit);
    assert s[|pre|..] == ds + rest;
    PrefixWhileOf(ds, rest, IsDigit);
  }

  /** `\d+(\.\d+)?` on a text whose first number has a fractional part reads
      the decimal `ds.fr`. */
  lemma FirstDecimalNumberDecimal(pre: string, ds: string, fr: string, rest: string)
    requires forall k :: 0 <= k < |pre| ==> !IsDigit(pre[k])
    requires ds != [] && AllDigits(ds) && fr != [] && AllDigits(fr)
    requires rest != [] ==> !IsDigit(rest[0])
    ensures FirstDecimalNumber(pre + ds + ("." + fr + rest)) == Some(DecimalValue(ds, fr))
  {
    var tail := "." + fr + rest;
    var s := pre + ds + tail;
    var e := |pre| + |ds|;
    assert FirstDigitRun(s) == Some(ds) && IndexWhere(s, IsDigit) == |pre| by {
      FirstDigitRunOf(pre, ds, tail);
    }
    FractionAfterRun(pre + ds, ds, fr, rest);
    FirstDecimalNumberAt(s, ds, e);
  }

  /** After `head`, a dot and the digit run `fr` make up the fractional part. */
  lemma FractionAfterRun(head: string, ds: string, fr: string, rest: string)
    requires AllDigits(ds) && fr != [] && AllDigits(fr)
    requires rest != [] ==> !IsDigit(rest[0])
    ensures NumberFrom(head + ("." + fr + rest), |head|, ds) == DecimalValue(ds, fr)
  {
    var tail := "." + fr + rest;
    var s := head + tail;
    var e := |head|;
    assert s[e] == '.' && s[e + 1] == fr[0];
    assert s[e + 1..] == fr + rest;
    PrefixWhileOf(fr, rest, IsDigit);
    NumberFromFraction(s, e, ds, fr);
  }

  /** `\d+(\.\d+)?` on a text whose first number has no fractional part reads
      the whole number `ds`. */
  lemma FirstDecimalNumberWhole(pre: string, ds: string, rest: string)
    requires forall k :: 0 <= k < |pre| ==> !IsDigit(pre[k])
    requires ds != [] && AllDigits(ds)
    requires rest != [] ==> !IsDigit(rest[0])
    requires |rest| >= 2 && rest[0] == '.' ==> !IsDigit(rest[1])
    ensures FirstDecimalNumber(pre + ds + rest) == Some(DigitsValue(ds) as real)
  {
    var s := pre + ds + rest;
    var e := |pre| + |ds|;
    assert FirstDigitRun(s) == Some(ds) && IndexWhere(s, IsDigit) == |pre| by {
      FirstDigitRunOf(pre, ds, rest);
    }
    assert NumberFrom(s, e, ds) == DigitsValue(ds) as real by {
      if e + 1 < |s| {
        assert s[e] == rest[0] && s[e + 1] == rest[1];
      }
    }
    FirstDecimalNumberAt(s, ds, e);
  }

  /** The fractional part read after a digit run is the digit run after the dot. */
  lemma NumberFromFraction(s: string, e: nat, ds: string, fr: string)
    requires AllDigits(ds) && e + 1 < |s| && s[e] == '.' && IsDigit(s[e + 1])
    requires PrefixWhile(s[e + 1..], IsDigit) == fr
    ensures AllDigits(fr)
    ensures NumberFrom(s, e, ds) == DecimalValue(ds, fr)
  {
  }

  /** A text whose first digit run is `ds` reads the number that starts with it. */
  lemma FirstDecimalNumberAt(s: string, ds: string, e: nat)
    requires FirstDigitRun(s) == Some(ds) && e == IndexWhere(s, IsDigit) + |ds|
    ensures FirstDecimalNumber(s) == Some(NumberFrom(s, e, ds))
  {
  }

  /** A text containing `sub` still contains it with more text after it. */
  lemma {:induction false} ContainsExtend(t: string, u: string, sub: string)
    requires Contains(t, sub)
    ensures Contains(t + u, sub)
    decreases |t|
  {
    if StartsWith(t, sub) {
      assert (t + u)[..|sub|] == t[..|sub|];
    } else {
      ContainsExtend(t[1..], u, sub);
      assert (t + u)[1..] == t[1..] + u;
    }
  }

  /** A text containing `sub` still contains it with more text before it. */
  lemma {:induction false} ContainsInSuffix(s: string, i: nat, sub: string)
    requires i <= |s| && Contains(s[i..], sub)
    ensures Contains(s, sub)
    decreases i
  {
    if i > 0 {
      assert s[1..][i - 1..] == s[i..];
      ContainsInSuffix(s[1..], i - 1, sub);
    }
  }

  /** A substring of `s[i..][..j]` is a substring of `s`. */
  lemma ContainsInSlice(s: string, i: nat, j: nat, sub: string)
    requires i <= |s| && j <= |s| - i && Contains(s[i..][..j], sub)
    ensures Contains(s, sub)
  {
    ContainsExtend(s[i..][..j], s[i..][j..], sub);
    assert s[i..][..j] + s[i..][j..] == s[i..];
    ContainsInSuffix(s, i, sub);
  }

  /** Stripping white space never makes a substring appear, before or after
      lower-casing. */
  lemma StripAddsNoSubstring(t: string, sub: string)
    ensures Contains(PyStrip(t), sub) ==> Contains(t, sub)
    ensures Contains(Lower(PyStrip(t)), sub) ==> Contains(Lower(t), sub)
  {
    var l := LStrip(t, IsPySpace);
    var i := |t| - |l|;
    var j := |RStrip(l, IsPySpace)|;
    assert PyStrip(t) == t[i..][..j];
    if Contains(PyStrip(t), sub) {
      ContainsInSlice(t, i, j, sub);
    }
    assert Contains(Lower(PyStrip(t)), sub) ==> Contains(Lower(t), sub) by {
      LowerOfSlice(t, i, j);
      if Contains(Lower(PyStrip(t)), sub) {
        ContainsInSlice(Lower(t), i, j, sub);
      }
    }
  }

  lemma LowerOfSlice(t: string, i: nat, j: nat)
    requires i <= |t| && j <= |t| - i
    ensures Lower(t[i..][..j]) == Lower(t)[i..][..j]
  {
  }
}
