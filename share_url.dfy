/**
 * The product-id extraction of jd_price.js: the first match of
 * `/product\/graphext\/(\d+)\.html/` in the request URL, and the share URL
 * built from its digit group.
 */
module ShareUrl {
  import opened Options
  import opened Text

  const Marker := "product/graphext/"
  const HtmlSuffix := ".html"
  const SharePrefix := "https://item.m.jd.com/product/"

  /** The text of `s` at position `i` is `p`. */
  predicate TextAt(s: string, i: nat, p: string) {
    i + |p| <= |s| && forall k :: 0 <= k < |p| ==> s[i + k] == p[k]
  }

  /** The length of the longest run of digits in `s` from position `i` on. */
  function DigitRun(s: string, i: nat): (n: nat)
    requires i <= |s|
    ensures i + n <= |s|
    ensures forall k :: i <= k < i + n ==> IsDigit(s[k])
    ensures i + n < |s| ==> !IsDigit(s[i + n])
    decreases |s| - i
  {
    if i < |s| && IsDigit(s[i]) then 1 + DigitRun(s, i + 1) else 0
  }

  /**
   * The digit group when the pattern matches at position `s`. The greedy
   * `\d+` takes the whole run of digits; giving digits back cannot help,
   * because `\.` must then match a digit.
   */
  function MatchAt(url: string, s: nat): (r: Option<string>)
    requires s <= |url|
    ensures r.Some? ==> |r.value| > 0 && AllDigits(r.value) && TextAt(url, s, Marker)
  {
    if TextAt(url, s, Marker) then
      var start := s + |Marker|;
      var n := DigitRun(url, start);
      if n > 0 && TextAt(url, start + n, HtmlSuffix) then Some(url[start..start + n]) else None
    else None
  }

  lemma {:induction false} DigitRunOfDigits(url: string, i: nat, d: string)
    requires i + |d| <= |url| && url[i..i + |d|] == d && AllDigits(d)
    requires i + |d| < |url| && !IsDigit(url[i + |d|])
    ensures DigitRun(url, i) == |d|
    decreases |d|
  {
    if |d| > 0 {
      assert url[i] == d[0];
      assert url[i + 1..i + 1 + |d[1..]|] == d[1..];
      DigitRunOfDigits(url, i + 1, d[1..]);
    }
  }

  /** Text made of three parts, read back part by part. */
  lemma TextAtParts(url: string, s: nat, a: string, b: string, c: string)
    requires TextAt(url, s, a + b + c)
    ensures TextAt(url, s, a) && TextAt(url, s + |a|, b) && TextAt(url, s + |a| + |b|, c)
  {
    var whole := a + b + c;
    forall k | 0 <= k < |a| ensures url[s + k] == a[k] {
      assert url[s + k] == whole[k];
    }
    forall k | 0 <= k < |b| ensures url[s + |a| + k] == b[k] {
      assert url[s + (|a| + k)] == whole[|a| + k];
    }
    forall k | 0 <= k < |c| ensures url[s + |a| + |b| + k] == c[k] {
      assert url[s + (|a| + |b| + k)] == whole[|a| + |b| + k];
    }
  }

  /** The text `product/graphext/<d>.html` at `s` is a match with digit group `d`. */
  lemma MatchAtText(url: string, s: nat, d: string)
    requires |d| > 0 && AllDigits(d) && TextAt(url, s, Marker + d + HtmlSuffix)
    ensures MatchAt(url, s) == Some(d)
  {
    var start := s + |Marker|;
    TextAtParts(url, s, Marker, d, HtmlSuffix);
    assert url[start + |d|] == HtmlSuffix[0];
    DigitRunOfDigits(url, start, d);
  }

  /** A match at `s` with digit group `d` is the text `product/graphext/<d>.html` there. */
  lemma TextOfMatchAt(url: string, s: nat, d: string)
    requires s <= |url| && MatchAt(url, s) == Some(d)
    ensures |d| > 0 && AllDigits(d) && TextAt(url, s, Marker + d + HtmlSuffix)
  {
    var start := s + |Marker|;
    var n := DigitRun(url, start);
    assert url[s..s + |Marker + d + HtmlSuffix|] ==
           url[s..start] + url[start..start + n] + url[start + n..start + n + |HtmlSuffix|];
  }

  /** The pattern matches at `s` with digit group `d` exactly when the text there is `product/graphext/<d>.html`. */
  lemma MatchAtIff(url: string, s: nat, d: string)
    requires s <= |url|
    ensures MatchAt(url, s) == Some(d) <==> |d| > 0 && AllDigits(d) && TextAt(url, s, Marker + d + HtmlSuffix)
  {
    if |d| > 0 && AllDigits(d) && TextAt(url, s, Marker + d + HtmlSuffix) {
      MatchAtText(url, s, d);
    }
    if MatchAt(url, s) == Some(d) {
      TextOfMatchAt(url, s, d);
    }
  }

  /** The leftmost position at or after `from` where the pattern matches. */
  function FirstMatch(url: string, from: nat): (r: Option<nat>)
    requires from <= |url|
    ensures r.Some? ==> from <= r.value <= |url| && MatchAt(url, r.value).Some?
    ensures r.Some? ==> forall s :: from <= s < r.value ==> MatchAt(url, s).None?
    ensures r.None? ==> forall s :: from <= s <= |url| ==> MatchAt(url, s).None?
    decreases |url| - from
  {
    if MatchAt(url, from).Some? then Some(from)
    else if from == |url| then None
    else FirstMatch(url, from + 1)
  }

  /**
   * `https://item.m.jd.com/product/${match[1]}.html`. None stands for the
   * TypeError the script raises when `url.match` returns null.
   */
  function ShareUrlOf(url: string): (r: Option<string>)
    ensures r.None? <==> forall s :: 0 <= s <= |url| ==> MatchAt(url, s).None?
    ensures r.Some? ==> exists s :: 0 <= s <= |url| && MatchAt(url, s).Some? &&
                          (forall s' :: 0 <= s' < s ==> MatchAt(url, s').None?) &&
                          r.value == SharePrefix + MatchAt(url, s).value + HtmlSuffix
  {
    match FirstMatch(url, 0)
    case None => None
    case Some(s) => Some(SharePrefix + MatchAt(url, s).value + HtmlSuffix)
  }

  /** The request URLs the script is installed for start with this host part and the marker. */
  const Host := "https://in.m.jd.com/"

  /**
   * For a URL the script is triggered on, the digit group is the product id
   * of the path, and the share URL carries that id.
   */
  lemma TriggeredUrl(id: string, rest: string)
    requires |id| > 0 && AllDigits(id)
    ensures var url := Host + Marker + id + HtmlSuffix + rest;
            FirstMatch(url, 0) == Some(|Host|) && MatchAt(url, |Host|) == Some(id) &&
            ShareUrlOf(url) == Some(SharePrefix + id + HtmlSuffix)
  {
    var url := Host + Marker + id + HtmlSuffix + rest;
    assert url == Host + (Marker + id + HtmlSuffix) + rest;
    assert TextAt(url, 0, url);
    TextAtParts(url, 0, Host, Marker + id + HtmlSuffix, rest);
    MatchAtText(url, |Host|, id);
    var r := FirstMatch(url, 0);
    assert r.Some? && r.value <= |Host|;
    if r.value < |Host| {
      NoMarkerInHost(url, r.value);
    }
  }

  /** The host part `https://in.m.jd.com/` holds no `product/graphext/`. */
  lemma NoMarkerInHost(url: string, s: nat)
    requires TextAt(url, 0, Host) && s < |Host| && |Host| + |Marker| <= |url|
    ensures MatchAt(url, s).None?
  {
    assert url[..|Host|] == Host;
    var t := url[s..s + |Marker|];
    if s == 3 {
      assert t[1] == url[4] == Host[4];
      assert t[1] != Marker[1];
    } else {
      assert t[0] == url[s] == Host[s];
      assert t[0] != Marker[0];
    }
  }
}
