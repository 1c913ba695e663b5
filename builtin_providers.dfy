/**
 * The twelve built-in providers. Each is a subclass of the provider whose
 * constructor ignores its own arguments and passes constant values to the
 * parent constructor; here each is a constant record and one method that
 * builds the provider from it.
 */
module BuiltinProviders {
  import opened Outcomes
  import opened PhpValues
  import opened UrlSchemes
  import opened Providers

  datatype Builtin =
    | Flickr | YouTube | Vimeo | SlideShare | SmugMug | Viddler
    | Revision3 | IFixit | PollEverywhere | Qik | Hulu | Twitter

  /** The constants a built-in provider passes to the parent constructor. */
  datatype ProviderRecord = ProviderRecord(endpoint: string, schemes: seq<string>, url: string, name: string)

  const FlickrScheme := "http://*.flickr.com/*"
  const YouTubeScheme := "http://*.youtube.com/*"
  const VimeoScheme := "http://*.vimeo.com/*"
  const VimeoGroupsScheme := "http://*.vimeo.com/groups/*/*"
  const SlideShareScheme := "http://www.slideshare.net/*/*"
  const SmugMugScheme := "http://*.smugmug.com/*"
  const ViddlerScheme := "http://*.viddler.com/*"
  const Revision3Scheme := "http://*.revision3.com/*"
  const IFixitScheme := "http://*.ifixit.com/Guide/View/*"
  const PollsScheme := "http://*.polleverywhere.com/polls/*"
  const MultipleChoicePollsScheme := "http://*.polleverywhere.com/multiple_choice_polls/*"
  const FreeTextPollsScheme := "http://*.polleverywhere.com/free_text_polls/*"
  const QikVideoScheme := "http://qik.com/video/*"
  const QikScheme := "http://qik.com/*"
  const HuluScheme := "http://www.hulu.com/watch/*"
  const TwitterHttpScheme := "http://twitter.com/*/status/*"
  const TwitterHttpsScheme := "https://twitter.com/*/status/*"

  function Record(b: Builtin): ProviderRecord
  {
    match b
    case Flickr =>
      ProviderRecord("http://www.flickr.com/services/oembed/", [FlickrScheme],
                     "http://www.flickr.com", "Flickr")
    case YouTube =>
      ProviderRecord("http://www.youtube.com/oembed", [YouTubeScheme],
                     "http://www.youtube.com", "YouTube")
    case Vimeo =>
      ProviderRecord("http://www.vimeo.com/api/oembed.json", [VimeoScheme, VimeoGroupsScheme],
                     "http://www.vimeo.com", "Vimeo")
    case SlideShare =>
      ProviderRecord("http://www.slideshare.net/api/oembed/2", [SlideShareScheme],
                     "http://www.slideshare.net", "SlideShare")
    case SmugMug =>
      ProviderRecord("http://api.smugmug.com/services/oembed/", [SmugMugScheme],
                     "http://www.smugmug.com", "SmugMug")
    case Viddler =>
      ProviderRecord("http://lab.viddler.com/services/oembed/", [ViddlerScheme],
                     "http://www.viddler.com", "Viddler")
    case Revision3 =>
      ProviderRecord("http://revision3.com/api/oembed/", [Revision3Scheme],
                     "http://www.revision3.com", "Revision3")
    case IFixit =>
      ProviderRecord("http://www.ifixit.com/Embed", [IFixitScheme],
                     "http://www.ifixit.com", "iFixit")
    case PollEverywhere =>
      ProviderRecord("http://www.polleverywhere.com/services/oembed/",
                     [PollsScheme, MultipleChoicePollsScheme, FreeTextPollsScheme],
                     "http://www.polleverywhere.com", "Poll Everywhere")
    case Qik =>
      ProviderRecord("http://qik.com/api/oembed.json", [QikVideoScheme, QikScheme],
                     "http://www.qik.com", "Qik")
    case Hulu =>
      ProviderRecord("http://www.hulu.com/api/oembed.json", [HuluScheme],
                     "http://www.hulu.com", "Hulu")
    case Twitter =>
      ProviderRecord("https://api.twitter.com/1/statuses/oembed.json", [TwitterHttpScheme, TwitterHttpsScheme],
                     "http://twitter.com", "Twitter")
  }

  /** SlideShare and Hulu declare `$endpoint` without a default value. */
  predicate EndpointArgumentRequired(b: Builtin)
  {
    b == SlideShare || b == Hulu
  }

  /**
   * `new Flickr(...)` and the others. The arguments are accepted and ignored
   * (`None` stands for an omitted endpoint), so every instance of a built-in
   * provider holds the same values, whatever it was given.
   */
  method NewBuiltin(b: Builtin, endpoint: Option<Value>, args: seq<SchemeArg>, url: Value, name: Value)
    returns (p: Provider)
    requires EndpointArgumentRequired(b) ==> endpoint.Some?
    ensures fresh(p) && p.Valid()
    ensures p.endpoint == Str(Record(b).endpoint)
    ensures SchemeTexts(p.schemes) == Record(b).schemes
    ensures p.url == Str(Record(b).url) && p.name == Str(Record(b).name)
    ensures forall j :: 0 <= j < |p.schemes| ==> fresh(p.schemes[j]) && p.schemes[j].pattern == None
  {
    var r := Record(b);
    var texts := TextArgs(r.schemes);
    AllTextsSurvive(r.schemes);
    p := new Provider(Str(r.endpoint), texts, Str(r.url), Str(r.name));
  }

  // ------------------------------------------------------------ Flickr

  lemma FlickrSchemeParts()
    ensures FlickrScheme == "http" + SubdomainWildcard + "flickr.com/" + "*"
  {
  }

  lemma FlickrPhotoPageSplit()
    ensures "http://www.flickr.com/photos/24887479@N06/2656764466/"
         == "http://www.flickr.com/" + "photos/24887479@N06/2656764466/"
  {
  }

  lemma FlickrHostParts()
    ensures "http://www.flickr.com/" == "http" + "://" + "www." + "flickr.com/"
  {
  }

  lemma FlickrMatchesPhotoPage()
    ensures ProviderMatches(Record(Flickr).schemes, "http://www.flickr.com/photos/24887479@N06/2656764466/")
  {
    assert Record(Flickr).schemes == [FlickrScheme];
    var path := "photos/24887479@N06/2656764466/";
    FlickrPhotoPageSplit();
    FlickrHostParts();
    FlickrSchemeParts();
    SubdomainSchemeMatches("http", "flickr.com/", "www.", "flickr.com/", path);
    SingleSchemeProvider(FlickrScheme, "http://www.flickr.com/photos/24887479@N06/2656764466/");
  }

  lemma FlickrRejectsExampleOrg()
    ensures !ProviderMatches(Record(Flickr).schemes, "http://example.org/")
  {
    assert Record(Flickr).schemes == [FlickrScheme];
    FlickrSchemeParts();
    SubdomainSchemeNeedsChar("http", "flickr.com/", 0, "http://example.org/");
    SingleSchemeProvider(FlickrScheme, "http://example.org/");
  }

  // ----------------------------------------------------------- YouTube

  lemma YouTubeSchemeParts()
    ensures YouTubeScheme == "http" + SubdomainWildcard + "youtube.com/" + "*"
  {
  }

  lemma YouTubeWatchPageParts()
    ensures "http://www.youtube.com/watch?v=ReSxgDpAJwk" == "http" + "://" + "www." + "youtube.com/" + "watch?v=ReSxgDpAJwk"
  {
  }

  lemma YouTubeMatchesWatchPage()
    ensures ProviderMatches(Record(YouTube).schemes, "http://www.youtube.com/watch?v=ReSxgDpAJwk")
  {
    assert Record(YouTube).schemes == [YouTubeScheme];
    YouTubeSchemeParts();
    YouTubeWatchPageParts();
    SubdomainSchemeMatches("http", "youtube.com/", "www.", "youtube.com/", "watch?v=ReSxgDpAJwk");
    SingleSchemeProvider(YouTubeScheme, "http://www.youtube.com/watch?v=ReSxgDpAJwk");
  }

  // ------------------------------------------------------------- Vimeo

  lemma VimeoSchemeParts()
    ensures VimeoScheme == "http" + SubdomainWildcard + "vimeo.com/" + "*"
    ensures VimeoGroupsScheme == "http" + SubdomainWildcard + "vimeo.com/" + "groups/*/*"
  {
  }

  /** Every URL the groups scheme matches is matched by the first scheme already. */
  lemma VimeoGroupsSchemeSubsumed(url: string)
    requires SchemeMatches(VimeoGroupsScheme, url)
    ensures SchemeMatches(VimeoScheme, url)
  {
    VimeoSchemeParts();
    VimeoPartsSubsumed(url);
  }

  lemma VimeoPartsSubsumed(url: string)
    requires SchemeMatches("http" + SubdomainWildcard + "vimeo.com/" + "groups/*/*", url)
    ensures SchemeMatches("http" + SubdomainWildcard + "vimeo.com/" + "*", url)
  {
    SubdomainSchemeSubsumed("http", "vimeo.com/", "groups/*/*", url);
  }

  /** The Vimeo provider accepts exactly the URLs its first scheme matches. */
  lemma VimeoMatchesIff(url: string)
    ensures ProviderMatches(Record(Vimeo).schemes, url) <==> SchemeMatches(VimeoScheme, url)
  {
    assert Record(Vimeo).schemes == [VimeoScheme, VimeoGroupsScheme];
    TwoSchemeProvider(VimeoScheme, VimeoGroupsScheme, url);
    if SchemeMatches(VimeoGroupsScheme, url) {
      VimeoGroupsSchemeSubsumed(url);
    }
  }

  // -------------------------------------------------------- SlideShare

  const SlideShareHome := "http://www.slideshare.net/"

  lemma SlideShareSchemeParts()
    ensures SlideShareScheme == SlideShareHome + "*" + "/" + "*"
    ensures NoWildcard(SlideShareHome) && SlideShareHome[|SlideShareHome| - 1] == '/'
  {
  }

  /** The SlideShare home page followed by one segment without a slash does not match. */
  lemma SlideShareNeedsTwoSegments(v: string)
    requires forall k :: 0 <= k < |v| ==> v[k] != '/'
    ensures !ProviderMatches(Record(SlideShare).schemes, SlideShareHome + v)
  {
    assert Record(SlideShare).schemes == [SlideShareScheme];
    SlideShareSchemeParts();
    SlashSegmentNeeded(SlideShareHome, v);
    SingleSchemeProvider(SlideShareScheme, SlideShareHome + v);
  }

  lemma SlideShareRejectsSingleSegment()
    ensures !ProviderMatches(Record(SlideShare).schemes, "http://www.slideshare.net/x")
  {
    assert "http://www.slideshare.net/x" == SlideShareHome + "x";
    SlideShareNeedsTwoSegments("x");
  }

  lemma SlideShareDeckParts()
    ensures "http://www.slideshare.net/user/deck" == SlideShareHome + "user" + "/" + "deck"
  {
  }

  lemma SlideShareMatchesTwoSegments()
    ensures ProviderMatches(Record(SlideShare).schemes, "http://www.slideshare.net/user/deck")
  {
    assert Record(SlideShare).schemes == [SlideShareScheme];
    SlideShareSchemeParts();
    SlideShareDeckParts();
    TwoPartSchemeMatches(SlideShareHome, "/", SlideShareHome, "user", "/", "deck");
    SingleSchemeProvider(SlideShareScheme, "http://www.slideshare.net/user/deck");
  }

  // --------------------------------------------------------- Revision3

  lemma Revision3SchemeParts()
    ensures Revision3Scheme == "http" + SubdomainWildcard + "revision3.com/" + "*"
  {
  }

  lemma Revision3ShowParts()
    ensures "http://revision3.com/show" == "http" + "://" + "" + "revision3.com/" + "show"
  {
  }

  /** The dot after the sub-domain wildcard is swallowed, so the bare host matches. */
  lemma Revision3MatchesBareHost()
    ensures ProviderMatches(Record(Revision3).schemes, "http://revision3.com/show")
  {
    assert Record(Revision3).schemes == [Revision3Scheme];
    Revision3SchemeParts();
    Revision3ShowParts();
    SubdomainSchemeMatches("http", "revision3.com/", "", "revision3.com/", "show");
    SingleSchemeProvider(Revision3Scheme, "http://revision3.com/show");
  }

  // ------------------------------------------------------------ iFixit

  lemma IFixitSchemeParts()
    ensures IFixitScheme == "http" + SubdomainWildcard + "ifixit.com/Guide/View/" + "*"
  {
  }

  lemma IFixitGuideParts()
    ensures "http://www.ifixit.com/guide/view/1" == "http" + "://" + "www." + "ifixit.com/guide/view/" + "1"
  {
  }

  lemma IFixitLowerCasePath()
    ensures EqualsIgnoreCase("ifixit.com/guide/view/", "ifixit.com/Guide/View/")
  {
  }

  lemma IFixitSchemeIgnoresCase()
    ensures SchemeMatches(IFixitScheme, "http://www.ifixit.com/guide/view/1")
  {
    IFixitSchemeParts();
    IFixitGuideParts();
    IFixitLowerCasePath();
    SubdomainSchemeMatches("http", "ifixit.com/Guide/View/", "www.", "ifixit.com/guide/view/", "1");
  }

  /** Matching ignores case: a lower-case guide path matches the mixed-case scheme. */
  lemma IFixitIgnoresCase()
    ensures ProviderMatches(Record(IFixit).schemes, "http://www.ifixit.com/guide/view/1")
  {
    assert Record(IFixit).schemes == [IFixitScheme];
    IFixitSchemeIgnoresCase();
    SingleSchemeProvider(IFixitScheme, "http://www.ifixit.com/guide/view/1");
  }

  // ---------------------------------------------------- PollEverywhere

  lemma PollsSchemeParts()
    ensures PollsScheme == "http" + SubdomainWildcard + "polleverywhere.com/polls/" + "*"
  {
  }

  lemma PollPageParts()
    ensures "http://www.polleverywhere.com/polls/abc" == "http" + "://" + "www." + "polleverywhere.com/polls/" + "abc"
  {
  }

  lemma PollsSchemeMatchesPoll()
    ensures SchemeMatches(PollsScheme, "http://www.polleverywhere.com/polls/abc")
  {
    PollsSchemeParts();
    PollPageParts();
    SubdomainSchemeMatches("http", "polleverywhere.com/polls/", "www.", "polleverywhere.com/polls/", "abc");
  }

  lemma PollEverywhereMatchesPoll()
    ensures ProviderMatches(Record(PollEverywhere).schemes, "http://www.polleverywhere.com/polls/abc")
  {
    assert Record(PollEverywhere).schemes == [PollsScheme, MultipleChoicePollsScheme, FreeTextPollsScheme];
    PollsSchemeMatchesPoll();
    AnyMatchesIff(Record(PollEverywhere).schemes, "http://www.polleverywhere.com/polls/abc");
  }

  // --------------------------------------------------------------- Qik

  lemma QikSchemeParts()
    ensures QikVideoScheme == "http://qik.com/" + "video/" + "*"
    ensures QikScheme == "http://qik.com/" + "*"
  {
  }

  /** Every URL the video scheme matches is matched by the second, shorter scheme. */
  lemma QikVideoSchemeSubsumed(url: string)
    requires SchemeMatches(QikVideoScheme, url)
    ensures SchemeMatches(QikScheme, url)
  {
    QikSchemeParts();
    QikPartsSubsumed(url);
  }

  lemma QikPartsSubsumed(url: string)
    requires SchemeMatches("http://qik.com/" + "video/" + "*", url)
    ensures SchemeMatches("http://qik.com/" + "*", url)
  {
    LongerPrefixSubsumed("http://qik.com/", "video/", url);
  }

  /** The Qik provider accepts exactly the URLs its second scheme matches. */
  lemma QikMatchesIff(url: string)
    ensures ProviderMatches(Record(Qik).schemes, url) <==> SchemeMatches(QikScheme, url)
  {
    assert Record(Qik).schemes == [QikVideoScheme, QikScheme];
    TwoSchemeProvider(QikVideoScheme, QikScheme, url);
    if SchemeMatches(QikVideoScheme, url) {
      QikVideoSchemeSubsumed(url);
    }
  }

  // -------------------------------------------------------------- Hulu

  const HuluWatch := "http://www.hulu.com/watch/"

  lemma HuluParts()
    ensures HuluScheme == HuluWatch + "*"
    ensures "http://www.hulu.com/watch/123" == HuluWatch + "123"
    ensures NoWildcard(HuluWatch) && HuluWatch[21] == 'a'
  {
  }

  lemma HuluBrowseHasNoA()
    ensures forall k :: 0 <= k < |"http://www.hulu.com/browse"| ==> !CharEqualsIgnoreCase('a', "http://www.hulu.com/browse"[k])
  {
  }

  lemma HuluMatchesWatchPage()
    ensures ProviderMatches(Record(Hulu).schemes, "http://www.hulu.com/watch/123")
  {
    assert Record(Hulu).schemes == [HuluScheme];
    HuluParts();
    PrefixSchemeMatchesExtension(HuluWatch, "123");
    SingleSchemeProvider(HuluScheme, "http://www.hulu.com/watch/123");
  }

  lemma HuluRejectsBrowsePage()
    ensures !ProviderMatches(Record(Hulu).schemes, "http://www.hulu.com/browse")
  {
    assert Record(Hulu).schemes == [HuluScheme];
    HuluParts();
    HuluBrowseHasNoA();
    PrefixSchemeNeedsChar(HuluWatch, 21, "http://www.hulu.com/browse");
    SingleSchemeProvider(HuluScheme, "http://www.hulu.com/browse");
  }

  // ----------------------------------------------------------- Twitter

  lemma TwitterParts()
    ensures TwitterHttpsScheme == "https://twitter.com/" + "*" + "/status/" + "*"
    ensures "https://twitter.com/user/status/123" == "https://twitter.com/" + "user" + "/status/" + "123"
  {
  }

  lemma TwitterHttpsSchemeMatchesStatus()
    ensures SchemeMatches(TwitterHttpsScheme, "https://twitter.com/user/status/123")
  {
    TwitterParts();
    TwoPartSchemeMatches("https://twitter.com/", "/status/", "https://twitter.com/", "user", "/status/", "123");
  }

  /** An https status page matches through the second scheme. */
  lemma TwitterMatchesHttpsStatus()
    ensures ProviderMatches(Record(Twitter).schemes, "https://twitter.com/user/status/123")
  {
    assert Record(Twitter).schemes == [TwitterHttpScheme, TwitterHttpsScheme];
    TwitterHttpsSchemeMatchesStatus();
    TwoSchemeProvider(TwitterHttpScheme, TwitterHttpsScheme, "https://twitter.com/user/status/123");
  }

  // ---------------------------------------------------------- SmugMug

  lemma SmugMugSchemeParts()
    ensures SmugMugScheme == "http" + SubdomainWildcard + "smugmug.com/" + "*"
  {
  }

  lemma SmugMugGalleryParts()
    ensures "http://user.smugmug.com/gallery/1" == "http" + "://" + "user." + "smugmug.com/" + "gallery/1"
  {
  }

  /** A gallery on a user's sub-domain belongs to SmugMug. */
  lemma SmugMugMatchesUserGallery()
    ensures ProviderMatches(Record(SmugMug).schemes, "http://user.smugmug.com/gallery/1")
  {
    assert Record(SmugMug).schemes == [SmugMugScheme];
    SmugMugSchemeParts();
    SmugMugGalleryParts();
    SubdomainSchemeMatches("http", "smugmug.com/", "user.", "smugmug.com/", "gallery/1");
    SingleSchemeProvider(SmugMugScheme, "http://user.smugmug.com/gallery/1");
  }

  // ---------------------------------------------------------- Viddler

  lemma ViddlerSchemeParts()
    ensures ViddlerScheme == "http" + SubdomainWildcard + "viddler.com/" + "*"
  {
  }

  lemma ViddlerVideoParts()
    ensures "http://www.viddler.com/v/abc" == "http" + "://" + "www." + "viddler.com/" + "v/abc"
  {
  }

  lemma ViddlerMatchesVideo()
    ensures ProviderMatches(Record(Viddler).schemes, "http://www.viddler.com/v/abc")
  {
    assert Record(Viddler).schemes == [ViddlerScheme];
    ViddlerSchemeParts();
    ViddlerVideoParts();
    SubdomainSchemeMatches("http", "viddler.com/", "www.", "viddler.com/", "v/abc");
    SingleSchemeProvider(ViddlerScheme, "http://www.viddler.com/v/abc");
  }

  /** Viddler's scheme names `viddler.com`: a URL without a `v` is not one of its pages. */
  lemma ViddlerRejectsOtherHost()
    ensures !ProviderMatches(Record(Viddler).schemes, "http://example.org/")
  {
    assert Record(Viddler).schemes == [ViddlerScheme];
    ViddlerSchemeParts();
    SubdomainSchemeNeedsChar("http", "viddler.com/", 0, "http://example.org/");
    SingleSchemeProvider(ViddlerScheme, "http://example.org/");
  }
}
