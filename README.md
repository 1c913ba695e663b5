# Omlex — a Dafny model of an oEmbed consumer library

Omlex is a PHP library for consuming oEmbed. Given the URL of a page (a photo,
a video, a slide deck), it finds the provider's oEmbed API endpoint and
requests the page's embed description. It then turns the JSON answer into a
typed object (photo, video, link, rich) that renders itself as HTML. This
project models the core of the library in Dafny:

- **URL schemes** (`url_scheme.dfy`). A provider describes its pages by
  patterns such as `http://*.flickr.com/*`. The model compiles a scheme into
  a token sequence (`Lit(c)` or `Star`), the same shape as the regular
  expression the library builds. Matching is unanchored, ignores ASCII case,
  and lets `Star` run over anything but a line feed.
- **Providers** (`providers.dfy`, `builtin_providers.dfy`). A provider holds
  an endpoint, a URL, a name and its schemes. Its constructor keeps the
  scheme objects and strings it is given and drops everything else. `match`
  accepts a URL when any scheme matches, and also when no scheme is left.
  The twelve built-in providers are constant records. Lemmas state which
  page URLs each one accepts or rejects.
- **HTTP client** (`client.dfy`). The model covers the request options
  derived from the client's fields, and the mapping from a transfer outcome
  to a body or an error. It also covers `getLastResponse`, which `send`
  applies to what the transfer returns. Headers are not requested, so that
  is the response body alone.
- **Endpoint discovery** (`discoverer.dfy`). The model has the `href`
  extraction regular expression, the preferred-format selection policy
  (first `application/json` link, else the last link) and the per-URL cache.
- **Embed objects** (`embed_objects.dfy`). The type dispatch of the object
  factory, the required-field validation (`version` is always required and
  is checked last), and the `__toString` renderings of photo, link and rich.
- **The facade** (`oembed.dfy`). The `OEmbed` class: its options and the
  option white-list, construction with legacy discovery, the request URL and
  parameter defaults of `getObject`, and the non-200 rule of `sendRequest`.
- **PHP semantics** (`php_values.dfy`, `php_arrays.dfy`, `outcomes.dfy`).
  These hold the dynamic values, loose `==` against a word, the `(string)`
  cast, and ordered arrays where an update keeps the key's position.
  Exceptions are modelled as `Result` errors tagged with their class and
  message.

The network, the clock and the decoders are parameters of the model, not
parts of it. A transfer is a `Transfer` value (`Failed(message, errno)` or
`Completed(code, data)`). A page fetch is a function `fetch: string ->
Transfer`. The `<link>` tag scan is a function `scan: string ->
seq<LinkMatch>`. `parse_url`, `parse_str`, `http_build_query` and
`json_decode` are function parameters too.

In several places the described behaviour of the library and its code
disagree. This model follows the code:

- Scheme patterns are not anchored, so a scheme matches any URL that
  *contains* a matching substring (`UrlSchemes.Unanchored`).
- The sub-domain wildcard `://*.` swallows its dot, so
  `http://*.revision3.com/*` also accepts the bare host
  `http://revision3.com/` (`UrlSchemes.SubdomainWildcardAllowsBareHost`,
  `BuiltinProviders.Revision3MatchesBareHost`).
- The `URLScheme` constructor rejects only non-strings. The empty scheme is
  accepted, and it matches every URL (`UrlSchemes.EmptySchemeMatchesEverything`).
- When the API URL has a query string, `parse_str` *replaces* the caller's
  parameters rather than merging into them (`OEmbeds.QueryReplacesParameters`).
- The `xml` format can never succeed: the `instanceof` test names an
  unqualified `SimpleXMLElement` inside the `Omlex` namespace
  (`OEmbeds.XmlNeverSucceeds`).
- Legacy discovery in `OEmbed::discover` picks the *last* JSON link and
  falls back on `array_pop`. `array_pop` returns the value of the
  last-inserted *format key*, not the last link
  (`OEmbeds.LegacyLastEntryNotLastLink`). `Discoverer` picks the *first*
  JSON link (`OEmbeds.DiscoveryPoliciesDiffer`).
- PHP (up to 7.x) loose-compares an integer with a non-numeric string
  numerically. So the option key `0` passes the `setOption` white-list
  (`OEmbeds.ZeroKeyLeavesApi`).
- The user agent option cannot be set (`OEmbeds.UserAgentRejected`).
- The client asks the transfer for the body without headers, yet it still
  runs `getLastResponse` over it. A body that has a blank line, then a piece
  starting with `http`, then another blank line is returned only from that
  piece on. A `<link>` tag above that point is then never seen by discovery
  (`Clients.BodyCutAtHttpLine`, `Clients.ReceivedCutsBody`). The last piece
  is never tested, so with a single blank line the body comes back whole
  (`Clients.LastPieceNeverCut`).
- The class documentation (OEmbed.php:24-26) says that an exception is
  thrown when no API can be discovered. An exception is thrown only when the
  page has no oEmbed `<link>` tag at all. When such tags exist but none has an
  `href`, `discover` returns null (OEmbed.php:229), and construction goes on
  with a null API (`OEmbeds.LegacyNullWithoutHref`).

## Model

| member | source | states |
|---|---|---|
| UrlSchemes.Compile | lib/Omlex/URLScheme.php:84-113 | the compiled pattern never contains a literal `*`: every wildcard became `.*` |
| UrlSchemes.URLScheme.constructor | lib/Omlex/URLScheme.php:44-51 | keeps the scheme text, `ToString()` returns it, and no pattern is built yet |
| UrlSchemes.URLScheme.ToString | lib/Omlex/URLScheme.php:58-61 | the text a scheme is built from is what it converts to, as the constructor states |
| UrlSchemes.URLScheme.Match | lib/Omlex/URLScheme.php:70-77 | builds the pattern on first use and caches it; the answer is whether the scheme matches the URL |
| UrlSchemes.NewURLScheme | lib/Omlex/URLScheme.php:44-51 | construction succeeds exactly for string values; any other value raises InvalidArgument("The scheme cannot be empty.") |
| UrlSchemes.MatchesAnywhereIff | lib/Omlex/URLScheme.php:76 | an unanchored match holds iff the pattern matches a prefix of some suffix of the URL |
| UrlSchemes.LitsPrefix | lib/Omlex/URLScheme.php:107-112 | quoted text matches iff the URL starts with it ignoring ASCII case and the rest of the pattern matches the remainder |
| UrlSchemes.StarIff | lib/Omlex/URLScheme.php:110 | `.*` matches iff the rest matches after some line-feed-free stretch |
| UrlSchemes.PrefixExtends | lib/Omlex/URLScheme.php:76 | a prefix match survives appending text to the URL |
| UrlSchemes.Unanchored | lib/Omlex/URLScheme.php:76 | a match survives any text added before or after the URL |
| UrlSchemes.PatternPrefixMatches | lib/Omlex/URLScheme.php:110-112 | if a pattern matches, every prefix of that pattern matches |
| UrlSchemes.TrailingStar | lib/Omlex/URLScheme.php:110 | a trailing `.*` changes nothing about whether a prefix matches |
| UrlSchemes.Subsumes | lib/Omlex/URLScheme.php:110 | replacing a pattern's tail by `.*` accepts at least the same URLs |
| UrlSchemes.NoWildcardCompiles | lib/Omlex/URLScheme.php:97-107 | a scheme without `*` compiles to its own characters, quoted |
| UrlSchemes.LiteralSchemeMatchesIff | lib/Omlex/URLScheme.php:76 | a scheme without `*` matches iff it occurs in the URL, ignoring case |
| UrlSchemes.SubdomainWildcardCompiles | lib/Omlex/URLScheme.php:90-94 | `://*.` compiles to `://` then `.*`, dropping the dot |
| UrlSchemes.SubdomainWildcardAllowsBareHost | lib/Omlex/URLScheme.php:90-94 | because the dot is dropped, `x://*.host...` matches `x://host...` with no sub-domain |
| UrlSchemes.CompileStar | lib/Omlex/URLScheme.php:89-101 | a `*` that is not a sub-domain wildcard (not both after `://` and before a dot) compiles to `.*` in place, between the quoted text before it and the pattern of the rest |
| UrlSchemes.StarBeforeDotCompiles | lib/Omlex/URLScheme.php:89-101 | a plain `*.` (as in `/*.jpg`) keeps its dot; only `://*.` drops it |
| UrlSchemes.MissingCharNoMatch | lib/Omlex/URLScheme.php:76 | a pattern whose literal character occurs nowhere in the URL cannot match |
| UrlSchemes.SubdomainSchemeMatches | lib/Omlex/URLScheme.php:84-113 | `pre://*.t*` matches `pre://` + any line-free sub-domain + `t` in any case + anything |
| UrlSchemes.SubdomainSchemeNeedsChar | lib/Omlex/URLScheme.php:84-113 | `pre://*.t*` rejects a URL lacking one of `t`'s characters |
| UrlSchemes.TwoPartSchemeMatches | lib/Omlex/URLScheme.php:97-112 | `a*b*`, unless its first `*` is a sub-domain wildcard, matches `a`, any line-free text, `b`, anything |
| UrlSchemes.LongerPrefixSubsumed | lib/Omlex/URLScheme.php:97-112 | every URL `ab*` matches is matched by `a*` |
| UrlSchemes.SubdomainSchemeSubsumed | lib/Omlex/URLScheme.php:90-112 | every URL `pre://*.t rest` matches is matched by `pre://*.t*` |
| UrlSchemes.PrefixSchemeMatchesExtension | lib/Omlex/URLScheme.php:97-112 | `a*` matches every extension of `a` |
| UrlSchemes.PrefixSchemeNeedsChar | lib/Omlex/URLScheme.php:97-112 | `a*` rejects a URL lacking one of `a`'s characters |
| UrlSchemes.SlashSegmentNeeded | lib/Omlex/URLScheme.php:97-112 | `a/*/*` rejects `a/` followed by a slash-free segment |
| UrlSchemes.PrefixSchemeMatchesIff | lib/Omlex/URLScheme.php:97-112 | `pre*` matches iff `pre` occurs in the URL ignoring case |
| UrlSchemes.EmptySchemeMatchesEverything | lib/Omlex/URLScheme.php:44-51 | the empty scheme is accepted, compiles to the empty pattern and matches every URL |
| Providers.Survivors | lib/Omlex/Provider.php:59-67 | the kept arguments are no more than the given ones, and none is a non-scheme value |
| Providers.NormalizeSchemes | lib/Omlex/Provider.php:59-67 | one scheme per surviving entry, in order: a string becomes a fresh, uncompiled scheme with that text, a scheme object is kept as the same object, and every result is valid |
| Providers.Provider.constructor | lib/Omlex/Provider.php:57-73 | keeps endpoint, URL and name; scheme objects are kept as they are, strings become new schemes, other values are dropped, in order |
| Providers.Provider.GetEndpoint | lib/Omlex/Provider.php:112-115 | returns the endpoint given to the constructor (stated by the constructor's contract through this getter) |
| Providers.Provider.GetSchemes | lib/Omlex/Provider.php:102-105 | returns the normalised schemes the constructor kept |
| Providers.Provider.GetUrl | lib/Omlex/Provider.php:122-125 | returns the URL given to the constructor |
| Providers.Provider.GetName | lib/Omlex/Provider.php:132-135 | returns the name given to the constructor |
| Providers.Provider.Match | lib/Omlex/Provider.php:82-95 | the answer is whether the URL matches any kept scheme, or true when none is kept |
| Providers.SurvivorsSnoc | lib/Omlex/Provider.php:59-67 | the filter keeps the last argument iff it is a scheme object or a string |
| Providers.AnyMatchesIff | lib/Omlex/Provider.php:88-94 | the scheme loop answers true iff some scheme matches |
| Providers.AllTextsSurvive | lib/Omlex/Provider.php:59-67 | a list of strings survives the filter unchanged |
| Providers.SingleSchemeProvider | lib/Omlex/Provider.php:82-95 | a provider with one scheme matches exactly what that scheme matches |
| Providers.TwoSchemeProvider | lib/Omlex/Provider.php:82-95 | a provider with two schemes matches what either matches |
| Providers.EmptyProviderMatchesEverything | lib/Omlex/Provider.php:84-86 | a provider without schemes matches every URL |
| Providers.ProviderMatchesIff | lib/Omlex/Provider.php:82-95 | with at least one scheme, a provider matches iff some scheme matches |
| Providers.OnlyOtherValuesMatchEverything | lib/Omlex/Provider.php:59-67 | if every argument is dropped, the provider matches every URL |
| BuiltinProviders.NewBuiltin | lib/Omlex/Provider/Flickr.php:26-36 | a built-in provider ignores its arguments and holds its constant endpoint, schemes, URL and name |
| BuiltinProviders.FlickrMatchesPhotoPage | lib/Omlex/Provider/Flickr.php:29-34 | Flickr accepts `http://www.flickr.com/photos/...` |
| BuiltinProviders.FlickrRejectsExampleOrg | lib/Omlex/Provider/Flickr.php:29-34 | Flickr rejects `http://example.org/` |
| BuiltinProviders.YouTubeMatchesWatchPage | lib/Omlex/Provider/YouTube.php:29-34 | YouTube accepts a `www.youtube.com/watch?v=` page |
| BuiltinProviders.VimeoGroupsSchemeSubsumed | lib/Omlex/Provider/Vimeo.php:29-35 | Vimeo's groups scheme accepts nothing its first scheme rejects |
| BuiltinProviders.VimeoMatchesIff | lib/Omlex/Provider/Vimeo.php:29-35 | Vimeo accepts exactly the URLs its first scheme accepts |
| BuiltinProviders.SlideShareNeedsTwoSegments | lib/Omlex/Provider/SlideShare.php:29-34 | SlideShare rejects a page with a single path segment |
| BuiltinProviders.SlideShareRejectsSingleSegment | lib/Omlex/Provider/SlideShare.php:29-34 | SlideShare rejects `http://www.slideshare.net/x` |
| BuiltinProviders.SlideShareMatchesTwoSegments | lib/Omlex/Provider/SlideShare.php:29-34 | SlideShare accepts `http://www.slideshare.net/user/deck` |
| BuiltinProviders.SmugMugMatchesUserGallery | lib/Omlex/Provider/SmugMug.php:29-34 | SmugMug accepts a gallery on a user's sub-domain |
| BuiltinProviders.ViddlerMatchesVideo | lib/Omlex/Provider/Viddler.php:29-34 | Viddler accepts a `www.viddler.com/v/` page |
| BuiltinProviders.ViddlerRejectsOtherHost | lib/Omlex/Provider/Viddler.php:29-34 | Viddler rejects `http://example.org/` |
| BuiltinProviders.Revision3MatchesBareHost | lib/Omlex/Provider/Revision3.php:29-34 | Revision3 accepts `http://revision3.com/...` without a sub-domain |
| BuiltinProviders.IFixitIgnoresCase | lib/Omlex/Provider/iFixit.php:29-34 | iFixit accepts a guide URL written in a different case |
| BuiltinProviders.PollEverywhereMatchesPoll | lib/Omlex/Provider/PollEverywhere.php:29-36 | PollEverywhere accepts a `/polls/` page |
| BuiltinProviders.QikVideoSchemeSubsumed | lib/Omlex/Provider/Qik.php:29-35 | Qik's video scheme accepts nothing its general scheme rejects |
| BuiltinProviders.QikMatchesIff | lib/Omlex/Provider/Qik.php:29-35 | Qik accepts exactly the URLs its general `http://qik.com/*` scheme accepts |
| BuiltinProviders.HuluMatchesWatchPage | lib/Omlex/Provider/Hulu.php:29-34 | Hulu accepts a `/watch/` page |
| BuiltinProviders.HuluRejectsBrowsePage | lib/Omlex/Provider/Hulu.php:29-34 | Hulu rejects a browse page |
| BuiltinProviders.TwitterMatchesHttpsStatus | lib/Omlex/Provider/Twitter.php:27-33 | Twitter accepts an `https://twitter.com/<user>/status/<id>` URL |
| Clients.LineBreakLen | lib/Omlex/Client.php:110 | a line break is `\n` or `\r\n` and lies inside the text |
| Clients.SeparatorLen | lib/Omlex/Client.php:110 | a separator is two line breaks, 2 to 4 characters, inside the text |
| Clients.SplitConcat | lib/Omlex/Client.php:110 | joining the split pieces and captured separators gives back the raw text |
| Clients.SplitShape | lib/Omlex/Client.php:110 | the split alternates text and separators (odd length, odd positions are separators); each piece runs up to the leftmost separator in the text it starts, which is taken whole; no piece holds a separator |
| Clients.SplitFromNoSeparator | lib/Omlex/Client.php:110 | text without a separator splits into itself |
| Clients.LastHttpPart | lib/Omlex/Client.php:111-115 | finds the last text piece (stepping by two from the given one) that starts with `http`, ignoring case, or reports none |
| Clients.GetLastResponse | lib/Omlex/Client.php:108-118 | the backward loop returns exactly `LastResponse(raw)` |
| Clients.LastResponseIsSuffix | lib/Omlex/Client.php:108-118 | the last response is a suffix of the raw data |
| Clients.LastResponseStartsWithHttp | lib/Omlex/Client.php:111-115 | whenever the raw data is cut, the result starts with `http` |
| Clients.BodyCutAtHttpLine | lib/Omlex/Client.php:108-118 | a text with a blank line, then a piece starting with `http`, then another blank line comes back from that piece on |
| Clients.LastPieceNeverCut | lib/Omlex/Client.php:111 | the loop starts at `count - 3`, so the final piece is never tested: text with a single blank line comes back whole, whatever follows it |
| Clients.ReceivedCutsBody | lib/Omlex/Client.php:48-75 | with headers off, a 2xx body of that shape is returned cut |
| Clients.NoSeparatorKeepsRaw | lib/Omlex/Client.php:117 | data without a blank-line separator is returned unchanged |
| Clients.Received | lib/Omlex/Client.php:60-75 | a failed transfer raises its curl error; a status outside 200..299 raises "Non-2xx code was returned."; otherwise the last response is returned |
| Clients.Client.constructor | lib/Omlex/Client.php:21-34 | keeps the URL; errors are ignored, up to 5 redirects, 5 second timeout, as the getters report |
| Clients.Client.Options | lib/Omlex/Client.php:51-58 | redirects are followed iff the limit is positive; HTTP errors fail the transfer iff errors are not ignored |
| Clients.Client.Send | lib/Omlex/Client.php:43-76 | the result is `Received` of the transfer outcome |
| Clients.Client.SetIgnoreErrors | lib/Omlex/Client.php:78-81 | sets the flag, so `GetIgnoreErrors` returns the new value, and changes no other field or getter |
| Clients.Client.GetIgnoreErrors | lib/Omlex/Client.php:83-86 | returns the flag the constructor or the last `SetIgnoreErrors` stored |
| Clients.Client.SetMaxRedirects | lib/Omlex/Client.php:88-91 | sets the limit, so `GetMaxRedirects` returns the new value, and changes no other field or getter |
| Clients.Client.GetMaxRedirects | lib/Omlex/Client.php:93-96 | returns the limit the constructor or the last `SetMaxRedirects` stored |
| Clients.Client.SetTimeout | lib/Omlex/Client.php:98-101 | sets the timeout, so `GetTimeout` returns the new value, and changes no other field or getter |
| Clients.Client.GetTimeout | lib/Omlex/Client.php:103-106 | returns the timeout the constructor or the last `SetTimeout` stored |
| Discovery.QuoteFrom | lib/Omlex/Discoverer.php:110 | the first `"` at or after a position, or the end |
| Discovery.CaptureAt | lib/Omlex/Discoverer.php:110 | the captured `href` value is nonempty and free of quotes |
| Discovery.FirstHref | lib/Omlex/Discoverer.php:110 | the leftmost position where the `href` expression matches, or the end |
| Discovery.ExtractHref | lib/Omlex/Discoverer.php:108-115 | succeeds iff the expression matches somewhere, with the leftmost match's capture; otherwise raises InvalidArgument with the "No href" message |
| Discovery.ExtractHrefIff | lib/Omlex/Discoverer.php:110 | extraction succeeds iff some position matches, and the value is a capture at such a position |
| Discovery.ExtractHrefAfterPlainText | lib/Omlex/Discoverer.php:110-114 | with no `h` before it, the first `href="v"` yields `v` |
| Discovery.NoHrefTextFails | lib/Omlex/Discoverer.php:110-111 | text without the letter `h` yields the "No href" error |
| Discovery.EmptyHrefSkipped | lib/Omlex/Discoverer.php:110 | an empty `href=""` is passed over and a later one is captured |
| Discovery.Selected | lib/Omlex/Discoverer.php:90-96 | picks the first `application/json` match when there is one, otherwise the last match |
| Discovery.FirstPreferredFrom | lib/Omlex/Discoverer.php:90-94 | the loop returns at the first preferred match from a position, or falls back |
| Discovery.Endpoint | lib/Omlex/Discoverer.php:86-96 | no match raises "No valid oEmbed links found on page."; otherwise the selected match's attributes give the endpoint |
| Discovery.Discovered | lib/Omlex/Discoverer.php:74-97 | a failed fetch passes its error through; otherwise the fetched page is scanned and the endpoint selected |
| Discovery.CaseVariantNotPreferred | lib/Omlex/Discoverer.php:91 | the format comparison is strict: `Application/JSON` is not preferred |
| Discovery.NoFallbackFromChosenLink | lib/Omlex/Discoverer.php:90-94 | once a JSON link is chosen, a missing `href` is an error even if another link has one |
| Discovery.HrefBeforeTypeNotFound | lib/Omlex/Discoverer.php:90-115 | for any single link whose tag holds an `href` but whose attribute text after the type does not, discovery raises "No href" |
| Discovery.Discoverer.constructor | lib/Omlex/Discoverer.php:32 | the cache starts empty |
| Discovery.Discoverer.GetEndpointForUrl | lib/Omlex/Discoverer.php:56-63 | a cached URL returns its endpoint without fetching; otherwise the endpoint is discovered and cached on success; errors leave the cache unchanged |
| Discovery.Discoverer.FetchEndpointForUrl | lib/Omlex/Discoverer.php:74-97 | the loop with early return computes exactly `Discovered` |
| Discovery.LookupTwice | lib/Omlex/Discoverer.php:56-63 | after a successful lookup, a second lookup of the same URL returns the same endpoint whatever the network does |
| EmbedObjects.TypeOf | lib/Omlex/Object.php:29-34 | the four type names, and only those, map to their kinds |
| EmbedObjects.GetIsSet | lib/Omlex/Object/Common.php:64-87 | an absent field reads as null, and a field is set iff present and not null |
| EmbedObjects.Required | lib/Omlex/Object/Common.php:48 | the checked fields are the declared ones followed by `version` |
| EmbedObjects.FirstUnset | lib/Omlex/Object/Common.php:50-54 | the first required field that is not set, or the end |
| EmbedObjects.Validate | lib/Omlex/Object/Common.php:44-55 | succeeds iff every required field is set; otherwise raises ObjectException naming the first unset field |
| EmbedObjects.Construct | lib/Omlex/Object/Common.php:44-55 | the checking loop computes exactly `Validate` |
| EmbedObjects.Factory | lib/Omlex/Object.php:46-64 | no type raises "The object has no type."; an unknown type raises NoSupportException; a missing class raises ObjectException; otherwise the object keeps the payload and its type |
| EmbedObjects.FactoryBuildsKnownType | lib/Omlex/Object.php:52-63 | a known string type builds the object of that kind, subject to its required fields |
| EmbedObjects.VersionCheckedLast | lib/Omlex/Object/Common.php:48-54 | with the declared fields set and no version, the error names `version` |
| EmbedObjects.RenderPhoto | lib/Omlex/Object/Photo.php:28-33 | renders unless url, width, height or a set title is an object that cannot be converted to a string |
| EmbedObjects.RenderLink | lib/Omlex/Object/Link.php:24-27 | renders unless url or title is an object |
| EmbedObjects.RenderRich | lib/Omlex/Object/Rich.php:28-31 | returns the `html` string; any other value is a conversion error |
| EmbedObjects.PhotoUnsetTitleIsEmpty | lib/Omlex/Object/Photo.php:30-32 | an unset title renders as an empty `alt` |
| EmbedObjects.LinkAbsentIsEmpty | lib/Omlex/Object/Link.php:26 | an absent url or title renders as the empty string |
| EmbedObjects.LinkRendersTag | lib/Omlex/Object/Link.php:24-27 | a link renders as `<a href="..">..</a>` with the converted url, then the converted title, unescaped |
| EmbedObjects.LinkTagExample | lib/Omlex/Object/Link.php:24-27 | a link with url `http://x.com/` and no title renders `<a href="http://x.com/"></a>` |
| EmbedObjects.PhotoRendersTag | lib/Omlex/Object/Photo.php:28-33 | the photo renders as `<img src=".." width=".." height=".." alt=".." />` with the converted fields |
| EmbedObjects.PhotoResponseExample | lib/Omlex/Object/Photo.php:28-33 | a complete photo response builds a photo rendered as `<img src="u" width="100" height="50" alt="" />` |
| EmbedObjects.UnknownTypeExample | lib/Omlex/Object.php:52-55 | type `carousel` raises NoSupportException naming it |
| EmbedObjects.PhotoMissingWidth | lib/Omlex/Object/Photo.php:21-23 | a photo with a url and no width fails naming `width` |
| EmbedObjects.RichMissingHtml | lib/Omlex/Object/Rich.php:21-23 | a rich object without html fails naming `html` |
| EmbedObjects.NoTypeIsNotUnsupported | lib/Omlex/Object.php:48-50 | a missing type is an ObjectException, never a NoSupportException |
| OEmbeds.DefaultOptionValues | lib/Omlex/OEmbed.php:79-83 | timeout 3, API null, user agent `OEmbed @package-version@`, keys distinct |
| OEmbeds.AcceptedIff | lib/Omlex/OEmbed.php:130-137 | the white-list admits the API and timeout options and, by loose comparison, the integer key 0 |
| OEmbeds.WithOption | lib/Omlex/OEmbed.php:128-140 | an admitted option is stored and no other option changes; any other raises InvalidArgument naming it |
| OEmbeds.UserAgentRejected | lib/Omlex/OEmbed.php:130-137 | the user agent option is rejected |
| OEmbeds.ZeroKeyLeavesApi | lib/Omlex/OEmbed.php:130-139 | the key 0 is admitted and leaves the API option unchanged |
| OEmbeds.Configured | lib/Omlex/OEmbed.php:109-113 | applying the given options succeeds iff every key is admitted; a failure names the first rejected key, every key before it being admitted |
| OEmbeds.LastGiven | lib/Omlex/OEmbed.php:110-111 | a value is found iff the key is given, and it is the value of the key's last entry |
| OEmbeds.ConfiguredGet | lib/Omlex/OEmbed.php:109-113 | after a successful loop every given key holds the value of its last entry and every other key keeps its value |
| OEmbeds.SendRequest | lib/Omlex/OEmbed.php:242-264 | status 200 returns the body; a curl failure raises its error; any other status raises "Non-200 code returned." |
| OEmbeds.LastHrefIndex | lib/Omlex/OEmbed.php:222-227 | the last link of a format whose tag has an `href` |
| OEmbeds.HrefTableGet | lib/Omlex/OEmbed.php:222-227 | the table maps each format to the `href` of its last link that has one |
| OEmbeds.HrefTableEmpty | lib/Omlex/OEmbed.php:222-227 | when no tag has an `href` the table is empty |
| OEmbeds.LegacyEndpoint | lib/Omlex/OEmbed.php:218-229 | no link raises "No valid oEmbed links found on page."; otherwise the result is null or a string |
| OEmbeds.HrefFormats | lib/Omlex/OEmbed.php:222-227 | the formats of href-bearing links in order of first appearance, each listed once |
| OEmbeds.HrefFormatsMembers | lib/Omlex/OEmbed.php:222-227 | a format is listed iff some link of that format has an `href` |
| OEmbeds.HrefTableKeys | lib/Omlex/OEmbed.php:222-227 | the table's keys are those formats in order of first appearance, and they are distinct |
| OEmbeds.LegacyArrayPop | lib/Omlex/OEmbed.php:229 | with no `application/json` href, the result is the last href of the format whose first href-bearing link comes last |
| OEmbeds.LegacyFindsTagHref | lib/Omlex/OEmbed.php:222-229 | the whole tag is searched: a single link's `href` is found wherever it stands |
| OEmbeds.LegacyDiscovered | lib/Omlex/OEmbed.php:208-230 | a failed request passes its error through; otherwise the page's links decide the endpoint |
| OEmbeds.LegacyPrefersLastJson | lib/Omlex/OEmbed.php:229 | the last JSON link with an `href` gives the endpoint |
| OEmbeds.LegacyNullWithoutHref | lib/Omlex/OEmbed.php:229 | links without any `href` give a null endpoint |
| OEmbeds.LegacyLastEntryNotLastLink | lib/Omlex/OEmbed.php:225-229 | `array_pop` returns the last-inserted format's value, not the last link's |
| OEmbeds.DiscoveryPoliciesDiffer | lib/Omlex/OEmbed.php:222-229 | with two JSON links, the discoverer takes the first and legacy discovery the last |
| OEmbeds.Sign | lib/Omlex/OEmbed.php:154-160 | the separator is `&` iff the API URL has a non-empty, non-`0` query, else `?` |
| OEmbeds.RequestParametersDefaults | lib/Omlex/OEmbed.php:162-167 | `url` and `format` default to the page URL and `json` when unset, and other parameters are unchanged |
| OEmbeds.QueryReplacesParameters | lib/Omlex/OEmbed.php:156-160 | with an API query, the caller's parameters do not matter |
| OEmbeds.RequestUrl | lib/Omlex/OEmbed.php:169-171 | the request URL is the API, the separator and the encoded parameters; an object API is a conversion error |
| OEmbeds.Decoded | lib/Omlex/OEmbed.php:173-194 | `json` decodes and demands an object; `xml` fails with the parser's error; any other format leaves the body as it is |
| OEmbeds.XmlNeverSucceeds | lib/Omlex/OEmbed.php:182-191 | requesting XML always fails |
| OEmbeds.RetrievedObjectComesFromJson | lib/Omlex/OEmbed.php:165-196 | by default a successful result is the factory applied to the decoded JSON object |
| OEmbeds.ExplicitApiSkipsDiscovery | lib/Omlex/OEmbed.php:100-118 | an explicit string API is kept and no discovery happens |
| OEmbeds.NoOptionsDiscovers | lib/Omlex/OEmbed.php:115-117 | without options the API is discovered from the page, and discovery errors pass through |
| OEmbeds.NullApiDiscovers | lib/Omlex/OEmbed.php:109-117 | an explicit null API behaves as no option at all |
| OEmbeds.GivenApiSkipsDiscovery | lib/Omlex/OEmbed.php:109-117 | with any accepted options whose last `api` entry is not null, construction yields exactly the configured options and never fetches or scans the page |
| OEmbeds.NullOrAbsentApiDiscovers | lib/Omlex/OEmbed.php:109-117 | with accepted options whose `api` is absent or last given as null, construction stores the discovered endpoint as `api`, or fails with the discovery error |
| OEmbeds.OEmbed.constructor | lib/Omlex/OEmbed.php:79-90 | the options start at their defaults |
| OEmbeds.OEmbed.SetOption | lib/Omlex/OEmbed.php:128-140 | stores an admitted option; a rejected one raises and leaves the options unchanged |
| OEmbeds.OEmbed.Create | lib/Omlex/OEmbed.php:100-118 | an unparseable URL raises "The URL .. is invalid."; the option loop and the discovery agree with `Constructed` |
| OEmbeds.OEmbed.Discover | lib/Omlex/OEmbed.php:208-230 | computes exactly `LegacyDiscovered` |
| OEmbeds.OEmbed.GetObject | lib/Omlex/OEmbed.php:152-197 | computes exactly `Retrieved` for the configured API and page URL |
| PhpArrays.IndexOf | lib/Omlex/OEmbed.php:139 | the position of a key in an ordered array, or its length |
| PhpArrays.Get | lib/Omlex/OEmbed.php:115 | a key's value is found iff the key is present |
| PhpArrays.Put | lib/Omlex/OEmbed.php:139 | assigning an existing key keeps the length, and a new key is appended |
| PhpArrays.LastValue | lib/Omlex/OEmbed.php:229 | `array_pop` yields the last entry's value, or nothing for an empty array |
| PhpArrays.PutGet | lib/Omlex/OEmbed.php:139 | after an assignment the key reads the new value and other keys the old |
| PhpArrays.PutKeys | lib/Omlex/OEmbed.php:225 | assignment keeps the key order and appends new keys at the end |
| PhpValues.ToStr | lib/Omlex/Object.php:52 | the string cast fails exactly for objects, keeps strings, and turns null and false into "" |
| PhpValues.DecimalRoundTrip | lib/Omlex/Object/Photo.php:32 | the decimal text of an integer reads back as that integer |

## Left out

- The curl transport, its connect timeout and user-agent settings are not modelled. A transfer outcome is a parameter `Transfer`. `CURLOPT_FAILONERROR` is modelled only as an option whose effect shows up in the outcome.
- `parse_url`, `parse_str`, `http_build_query`, `json_decode` and libxml are function parameters. `OEmbed::__construct` takes whether the URL parses as a boolean.
- The `<link>` tag regular expressions (`Discoverer::LINK_REGEXP` and the one in `OEmbed::discover`) are given as a `scan` parameter. Only the `href` expression is modelled character by character.
- The random placeholder in `buildPatternFromScheme` (`md5(mt_rand())`) is left out. The model marks wildcards directly, which assumes that no scheme contains the placeholder text.
- The `u` flag: case folding is ASCII only, and strings are sequences of characters, not UTF-8 bytes.
- The `Video` object class is not part of this model. Its required fields and whether the class exists are a parameter (`Option<seq<string>>`). Video rendering is left out.
- Floating-point values: the PHP value model has null, booleans, integers, strings, arrays and objects, with no floats.
- Clients.Client: the setters take a typed `bool` or `int`, not any PHP value.
- OEmbeds.OEmbed.SetOption: the option names are array keys (`Key`). A non-key value such as an array is not modelled.
- Providers.Provider.constructor: the array keys of `getSchemes` are not modelled (the holes that `unset` leaves behind). The schemes are a sequence in the same order.
- BuiltinProviders.NewBuiltin: SlideShare and Hulu declare `$endpoint` without a default. This is a precondition that an endpoint is given.
- BuiltinProviders.TwitterMatchesHttpsStatus: only the direct match of the https scheme is proved. Whether the http scheme also matches such a URL is not stated.
- Exceptions become `Result` errors that carry the class tag and the message. Exception codes (`curl_errno`, the libxml error code) are dropped.
