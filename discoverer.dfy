/**
 * Endpoint discovery: the `href` extraction applied to a `<link>` tag, the
 * choice among the oEmbed links found on a page, and the per-instance cache
 * of discovered endpoints.
 *
 * The scan of the page for oEmbed `<link>` tags is a parameter: it returns,
 * in page order, one `LinkMatch` per tag it finds. So is the network:
 * `fetch` gives the transfer that a request for a URL produces.
 */
module Discovery {
  import opened Outcomes
  import opened PhpValues
  import opened Clients

  /**
   * One tag found by the scan: the whole tag, the captured format (matched
   * without regard to case) and the attribute text after the closing quote
   * of the type value.
   */
  datatype LinkMatch = LinkMatch(tag: string, format: string, attributes: string)

  const PreferredFormat := "application/json"
  const SupportedFormats := ["application/json", "text/xml"]

  const NoLinksMessage := "No valid oEmbed links found on page."
  const NoHrefMessage := "No \"href\" attribute was found in <link> tag."

  // --------------------------------------------------------- href extraction

  /** Position of the first `"` at or after `j`, or `|s|`. */
  function QuoteFrom(s: string, j: nat): (q: nat)
    requires j <= |s|
    ensures j <= q <= |s|
    ensures q < |s| ==> s[q] == '"'
    ensures forall k :: j <= k < q ==> s[k] != '"'
    decreases |s| - j
  {
    if j == |s| then j
    else if s[j] == '"' then j
    else QuoteFrom(s, j + 1)
  }

  lemma {:induction false} QuoteFromUnique(s: string, j: nat, q: nat)
    requires j <= q <= |s|
    requires q < |s| ==> s[q] == '"'
    requires forall k :: j <= k < q ==> s[k] != '"'
    ensures QuoteFrom(s, j) == q
    decreases |s| - j
  {
    if j < q {
      QuoteFromUnique(s, j + 1, q);
    }
  }

  /**
   * `href=[^"]*"([^"]+)"` (ignoring case) matches at `p`: after `href=`
   * everything up to the next quote is skipped, and the text up to the
   * quote after that is not empty.
   */
  predicate HrefAt(s: string, p: nat)
  {
    p + 5 <= |s| && EqualsIgnoreCase(s[p..p + 5], "href=") &&
    var open := QuoteFrom(s, p + 5);
    open < |s| && var close := QuoteFrom(s, open + 1);
    close < |s| && close > open + 1
  }

  /** The captured group of a match at `p`: the text between the two quotes. */
  function CaptureAt(s: string, p: nat): (h: string)
    requires HrefAt(s, p)
    ensures |h| > 0
    ensures forall k :: 0 <= k < |h| ==> h[k] != '"'
  {
    var open := QuoteFrom(s, p + 5);
    var close := QuoteFrom(s, open + 1);
    s[open + 1..close]
  }

  /** The leftmost position at or after `p` where the pattern matches, or `|s|`. */
  function FirstHref(s: string, p: nat): (j: nat)
    requires p <= |s|
    ensures p <= j <= |s|
    ensures j < |s| ==> HrefAt(s, j)
    ensures forall k :: p <= k < j ==> !HrefAt(s, k)
    decreases |s| - p
  {
    if p == |s| then p
    else if HrefAt(s, p) then p
    else FirstHref(s, p + 1)
  }

  lemma {:induction false} FirstHrefUnique(s: string, p: nat, j: nat)
    requires p <= j <= |s|
    requires j < |s| ==> HrefAt(s, j)
    requires forall k :: p <= k < j ==> !HrefAt(s, k)
    ensures FirstHref(s, p) == j
    decreases |s| - p
  {
    if p < j {
      FirstHrefUnique(s, p + 1, j);
    }
  }

  /**
   * `extractEndpointFromAttributes`: the capture of the leftmost match, or
   * an invalid-argument error when the pattern matches nowhere.
   */
  function ExtractHref(s: string): (r: Result<string>)
    ensures r.Ok? <==> FirstHref(s, 0) < |s|
    ensures r.Ok? ==> r.value == CaptureAt(s, FirstHref(s, 0))
    ensures r.Ok? ==> |r.value| > 0 && forall k :: 0 <= k < |r.value| ==> r.value[k] != '"'
    ensures r.Err? ==> r.error == InvalidArgument(NoHrefMessage)
  {
    var j := FirstHref(s, 0);
    if j < |s| then Ok(CaptureAt(s, j)) else Err(InvalidArgument(NoHrefMessage))
  }

  /** Extraction succeeds exactly when the pattern matches somewhere, and captures at the leftmost match. */
  lemma ExtractHrefIff(s: string)
    ensures ExtractHref(s).Ok? <==> exists j :: 0 <= j < |s| && HrefAt(s, j)
    ensures ExtractHref(s).Ok? ==> exists j :: 0 <= j < |s| && HrefAt(s, j) && ExtractHref(s).value == CaptureAt(s, j) &&
                                              forall k :: 0 <= k < j ==> !HrefAt(s, k)
  {
  }

  /** Text without an `h` or `H` holds no `href=`. */
  predicate NoLetterH(s: string)
  {
    forall k :: 0 <= k < |s| ==> s[k] != 'h' && s[k] != 'H'
  }

  /** `href="h"` right after `pre` is a match whose capture is `h`. */
  lemma HrefMatchAt(pre: string, h: string, rest: string)
    requires |h| > 0 && forall k :: 0 <= k < |h| ==> h[k] != '"'
    ensures var s := pre + "href=\"" + h + "\"" + rest;
            HrefAt(s, |pre|) && CaptureAt(s, |pre|) == h
  {
    var s := pre + "href=\"" + h + "\"" + rest;
    var p := |pre|;
    assert s[p..p + 5] == "href=";
    assert s[p + 5] == '"';
    QuoteFromUnique(s, p + 5, p + 5);
    var close := p + 6 + |h|;
    assert s[close] == '"';
    assert forall k :: p + 6 <= k < close ==> s[k] == h[k - p - 6];
    QuoteFromUnique(s, p + 6, close);
    assert s[p + 6..close] == h;
  }

  /** The first `href="…"` is found when nothing before it could start a match. */
  lemma ExtractHrefAfterPlainText(pre: string, h: string, rest: string)
    requires NoLetterH(pre)
    requires |h| > 0 && forall k :: 0 <= k < |h| ==> h[k] != '"'
    ensures ExtractHref(pre + "href=\"" + h + "\"" + rest) == Ok(h)
  {
    var s := pre + "href=\"" + h + "\"" + rest;
    var p := |pre|;
    HrefMatchAt(pre, h, rest);
    forall k | 0 <= k < p
      ensures !HrefAt(s, k)
    {
      assert s[k] == pre[k];
      if HrefAt(s, k) {
        HrefAtStartsWithH(s, k);
      }
    }
    FirstHrefUnique(s, 0, p);
  }

  /** Text without `href=` in any case yields no endpoint. */
  lemma NoHrefTextFails(s: string)
    requires NoLetterH(s)
    ensures ExtractHref(s) == Err(InvalidArgument(NoHrefMessage))
  {
    forall k | 0 <= k < |s|
      ensures !HrefAt(s, k)
    {
      if HrefAt(s, k) {
        HrefAtStartsWithH(s, k);
      }
    }
    FirstHrefUnique(s, 0, |s|);
  }

  /** A match starts with the letter `h` in either case. */
  lemma HrefAtStartsWithH(s: string, k: nat)
    requires HrefAt(s, k)
    ensures s[k] == 'h' || s[k] == 'H'
  {
    assert s[k..k + 5][0] == s[k];
    assert CharEqualsIgnoreCase(s[k], 'h');
  }

  /** An `href=""` with nothing between the quotes is no match. */
  lemma EmptyHrefNoMatch(s: string)
    requires |s| >= 8 && s[..8] == "href=\"\" "
    ensures forall k :: 0 <= k < 8 ==> !HrefAt(s, k)
  {
    assert s[5] == '"' && s[6] == '"';
    QuoteFromUnique(s, 5, 5);
    QuoteFromUnique(s, 6, 6);
    forall k | 1 <= k < 8
      ensures !HrefAt(s, k)
    {
      assert s[k] == s[..8][k];
      if HrefAt(s, k) {
        HrefAtStartsWithH(s, k);
      }
    }
  }

  /** An empty `href=""` is passed over, and a later `href` is found. */
  lemma EmptyHrefSkipped(h: string)
    requires |h| > 0 && forall k :: 0 <= k < |h| ==> h[k] != '"'
    ensures ExtractHref("href=\"\" href=\"" + h + "\"") == Ok(h)
  {
    var pre := "href=\"\" ";
    var s := pre + "href=\"" + h + "\"" + "";
    assert s == "href=\"\" href=\"" + h + "\"";
    HrefMatchAt(pre, h, "");
    assert s[..8] == pre;
    EmptyHrefNoMatch(s);
    FirstHrefUnique(s, 0, 8);
  }

  // -------------------------------------------------------------- selection

  /**
   * The link `fetchEndpointForUrl` uses: the first whose format is exactly
   * the preferred one, or else the last link.
   */
  function Selected(matches: seq<LinkMatch>): (i: nat)
    requires |matches| > 0
    ensures i < |matches|
    ensures (exists j :: 0 <= j < |matches| && matches[j].format == PreferredFormat) ==>
              matches[i].format == PreferredFormat &&
              forall k :: 0 <= k < i ==> matches[k].format != PreferredFormat
    ensures (forall j :: 0 <= j < |matches| ==> matches[j].format != PreferredFormat) ==> i == |matches| - 1
  {
    FirstPreferredFrom(matches, 0, |matches| - 1)
  }

  /** The first index at or after `i` whose format is preferred, or `fallback` when there is none. */
  function FirstPreferredFrom(matches: seq<LinkMatch>, i: nat, fallback: nat): (j: nat)
    requires i <= |matches| && fallback < |matches|
    ensures j < |matches|
    ensures (exists k :: i <= k < |matches| && matches[k].format == PreferredFormat) ==>
              i <= j && matches[j].format == PreferredFormat &&
              forall k :: i <= k < j ==> matches[k].format != PreferredFormat
    ensures (forall k :: i <= k < |matches| ==> matches[k].format != PreferredFormat) ==> j == fallback
    decreases |matches| - i
  {
    if i == |matches| then fallback
    else if matches[i].format == PreferredFormat then i
    else FirstPreferredFrom(matches, i + 1, fallback)
  }

  /** The endpoint a page's links give: no link is an error, and the chosen link's `href` decides, with no fallback. */
  function Endpoint(matches: seq<LinkMatch>): (r: Result<string>)
    ensures |matches| == 0 ==> r == Err(InvalidArgument(NoLinksMessage))
    ensures |matches| > 0 ==> r == ExtractHref(matches[Selected(matches)].attributes)
  {
    if |matches| == 0 then Err(InvalidArgument(NoLinksMessage))
    else ExtractHref(matches[Selected(matches)].attributes)
  }

  /** The outcome of `fetchEndpointForUrl`: the page is fetched with `send`, then its links decide. */
  function Discovered(url: string, fetch: string -> Transfer, scan: string -> seq<LinkMatch>): (r: Result<string>)
    ensures Received(fetch(url)).Err? ==> r == Err(Received(fetch(url)).error)
    ensures Received(fetch(url)).Ok? ==> r == Endpoint(scan(Received(fetch(url)).value))
  {
    var body :- Received(fetch(url));
    Endpoint(scan(body))
  }

  /** The preferred format is compared exactly: a case variant is not preferred, so the last link decides. */
  lemma CaseVariantNotPreferred(a: string, b: string)
    ensures var first := LinkMatch("", "Application/JSON", a);
            var last := LinkMatch("", "text/xml", b);
            Endpoint([first, last]) == ExtractHref(b)
  {
    var ms := [LinkMatch("", "Application/JSON", a), LinkMatch("", "text/xml", b)];
    assert ms[0].format != PreferredFormat;
    assert ms[1].format != PreferredFormat;
  }

  /** A preferred link without `href` makes discovery fail, whatever the links before it hold. */
  lemma NoFallbackFromChosenLink(other: LinkMatch, preferred: LinkMatch)
    requires other.format != PreferredFormat && preferred.format == PreferredFormat
    requires ExtractHref(preferred.attributes).Err?
    ensures Endpoint([other, preferred]) == Err(InvalidArgument(NoHrefMessage))
  {
    var ms := [other, preferred];
    assert ms[1].format == PreferredFormat;
    assert Selected(ms) == 1;
  }

  /**
   * Only the attribute text after the type is searched: a link whose `href`
   * is in its tag but not in that text (written before `type=`) gives the
   * "No href" error.
   */
  lemma HrefBeforeTypeNotFound(m: LinkMatch)
    requires ExtractHref(m.tag).Ok? && ExtractHref(m.attributes).Err?
    ensures Endpoint([m]) == Err(InvalidArgument(NoHrefMessage))
  {
    assert Selected([m]) == 0;
  }

  // ------------------------------------------------------------ discoverer

  class Discoverer {
    /** Discovered endpoints, keyed by resource URL. */
    var cachedEndpoints: map<string, string>

    constructor ()
      ensures cachedEndpoints == map[]
    {
      cachedEndpoints := map[];
    }

    /**
     * `getEndpointForUrl`: a cached endpoint is returned without fetching;
     * otherwise the endpoint is discovered and cached, and a failed
     * discovery stores nothing.
     */
    method GetEndpointForUrl(url: string, fetch: string -> Transfer, scan: string -> seq<LinkMatch>) returns (r: Result<string>)
      modifies this
      ensures url in old(cachedEndpoints) ==> r == Ok(old(cachedEndpoints)[url]) && cachedEndpoints == old(cachedEndpoints)
      ensures url !in old(cachedEndpoints) ==> r == Discovered(url, fetch, scan)
      ensures url !in old(cachedEndpoints) && r.Ok? ==> cachedEndpoints == old(cachedEndpoints)[url := r.value]
      ensures r.Err? ==> cachedEndpoints == old(cachedEndpoints)
    {
      if url !in cachedEndpoints {
        var e := FetchEndpointForUrl(url, fetch, scan);
        if e.Err? {
          return Err(e.error);
        }
        cachedEndpoints := cachedEndpoints[url := e.value];
      }
      return Ok(cachedEndpoints[url]);
    }

    /** `fetchEndpointForUrl`: the first preferred link with early return, else the last link. */
    method FetchEndpointForUrl(url: string, fetch: string -> Transfer, scan: string -> seq<LinkMatch>) returns (r: Result<string>)
      ensures r == Discovered(url, fetch, scan)
    {
      var client := new Client(url);
      var t := fetch(url);
      var sent := client.Send(t);
      if sent.Err? {
        return Err(sent.error);
      }
      var matches := scan(sent.value);
      assert Discovered(url, fetch, scan) == Endpoint(matches);
      if |matches| == 0 {
        return Err(InvalidArgument(NoLinksMessage));
      }
      var i := 0;
      while i < |matches|
        invariant 0 <= i <= |matches|
        invariant forall k :: 0 <= k < i ==> matches[k].format != PreferredFormat
      {
        if matches[i].format == PreferredFormat {
          assert Selected(matches) == i;
          return ExtractHref(matches[i].attributes);
        }
        i := i + 1;
      }
      assert Selected(matches) == |matches| - 1;
      return ExtractHref(matches[|matches| - 1].attributes);
    }
  }

  /** A second lookup of a URL returns the first one's endpoint, whatever a second fetch would give. */
  method LookupTwice(d: Discoverer, url: string, fetch1: string -> Transfer, fetch2: string -> Transfer,
                     scan: string -> seq<LinkMatch>)
    returns (first: Result<string>, second: Result<string>)
    modifies d
    ensures first.Ok? ==> second == first
  {
    first := d.GetEndpointForUrl(url, fetch1, scan);
    second := d.GetEndpointForUrl(url, fetch2, scan);
  }
}
