/**
 * The consumer: its options and their whitelist, construction (with
 * discovery of the API endpoint when none is given), the older discovery
 * routine it uses, and the assembly of the API request in `getObject`.
 *
 * The network, `parse_url`, `parse_str`, `http_build_query` and the JSON
 * decoder are parameters.
 */
module OEmbeds {
  import opened Outcomes
  import opened PhpValues
  import opened PhpArrays
  import EmbedObjects
  import opened Clients
  import opened Discovery

  const TimeoutOption := "http_timeout"
  const UserAgentOption := "http_user_agent"
  const ApiOption := "oembed_api"

  type Options = Entries<Key, Value>

  const DefaultUserAgent := "OEmbed @package-version@"

  /** The options every consumer starts with, in declaration order. */
  const DefaultOptions: Options := [(StrKey(TimeoutOption), Int(3)),
                                    (StrKey(ApiOption), Null),
                                    (StrKey(UserAgentOption), Str(DefaultUserAgent))]

  function InvalidUrlMessage(url: string): string
  {
    "The URL \"" + url + "\" is invalid."
  }

  function InvalidOptionMessage(option: Key): string
  {
    "The option \"" + KeyToStr(option) + "\" is invalid."
  }

  const Non200Message := "Non-200 code returned."
  const JsonMessage := "Could not parse JSON response."

  lemma DefaultOptionValues()
    ensures Get(DefaultOptions, StrKey(TimeoutOption)) == Some(Int(3))
    ensures Get(DefaultOptions, StrKey(ApiOption)) == Some(Null)
    ensures Get(DefaultOptions, StrKey(UserAgentOption)) == Some(Str(DefaultUserAgent))
    ensures DistinctKeys(DefaultOptions)
  {
    assert DefaultOptions[0].0 == StrKey(TimeoutOption);
    assert DefaultOptions[1].0 == StrKey(ApiOption);
    assert DefaultOptions[2].0 == StrKey(UserAgentOption);
    IndexOfUnique(DefaultOptions, StrKey(TimeoutOption), 0);
    IndexOfUnique(DefaultOptions, StrKey(ApiOption), 1);
    IndexOfUnique(DefaultOptions, StrKey(UserAgentOption), 2);
  }

  // ---------------------------------------------------------------- options

  /** The `switch` of `setOption`: the option name is compared loosely with the two accepted names. */
  predicate Accepted(option: Key)
  {
    KeyLooseEqualsWord(option, ApiOption) || KeyLooseEqualsWord(option, TimeoutOption)
  }

  /**
   * Exactly the API and timeout names pass, and so does the integer key 0,
   * which loose comparison equates with any word.
   */
  lemma AcceptedIff(option: Key)
    ensures Accepted(option) <==> option == StrKey(ApiOption) || option == StrKey(TimeoutOption) || option == IntKey(0)
  {
  }

  /** `setOption` on an options array: an accepted name is assigned, any other is an error that changes nothing. */
  function WithOption(opts: Options, option: Key, value: Value): (r: Result<Options>)
    ensures r.Ok? <==> Accepted(option)
    ensures r.Ok? ==> Get(r.value, option) == Some(value)
    ensures r.Ok? ==> forall k :: k != option ==> Get(r.value, k) == Get(opts, k)
    ensures r.Err? ==> r.error == InvalidArgument(InvalidOptionMessage(option))
  {
    if Accepted(option) then
      PutGetAll(opts, option, value);
      Ok(Put(opts, option, value))
    else Err(InvalidArgument(InvalidOptionMessage(option)))
  }

  lemma PutGetAll(opts: Options, option: Key, value: Value)
    ensures Get(Put(opts, option, value), option) == Some(value)
    ensures forall k :: k != option ==> Get(Put(opts, option, value), k) == Get(opts, k)
  {
    PutGet(opts, option, value, option);
    forall k | k != option
      ensures Get(Put(opts, option, value), k) == Get(opts, k)
    {
      PutGet(opts, option, value, k);
    }
  }

  /** The user-agent option cannot be set. */
  lemma UserAgentRejected(opts: Options, value: Value)
    ensures WithOption(opts, StrKey(UserAgentOption), value) ==
            Err(InvalidArgument(InvalidOptionMessage(StrKey(UserAgentOption))))
  {
    assert UserAgentOption != ApiOption && UserAgentOption != TimeoutOption;
  }

  /** The integer key 0 is accepted but stored under its own key: the API option is untouched. */
  lemma ZeroKeyLeavesApi(opts: Options, value: Value)
    ensures WithOption(opts, IntKey(0), value).Ok?
    ensures Get(WithOption(opts, IntKey(0), value).value, StrKey(ApiOption)) == Get(opts, StrKey(ApiOption))
  {
  }

  /** The constructor's option loop: each given option in turn, stopping at the first rejected one. */
  function Configured(opts: Options, given: Options): (r: Result<Options>)
    ensures r.Err? ==> exists j :: 0 <= j < |given| && !Accepted(given[j].0) &&
                                   (forall i :: 0 <= i < j ==> Accepted(given[i].0)) &&
                                   r.error == InvalidArgument(InvalidOptionMessage(given[j].0))
    ensures (forall j :: 0 <= j < |given| ==> Accepted(given[j].0)) <==> r.Ok?
    decreases |given|
  {
    if |given| == 0 then Ok(opts)
    else
      var next :- WithOption(opts, given[0].0, given[0].1);
      var r := Configured(next, given[1..]);
      assert forall j :: 1 <= j < |given| ==> given[j] == given[1..][j - 1];
      r
  }

  /** The value of the last entry of `given` with key `k`, if there is one. */
  function LastGiven(given: Options, k: Key): (r: Option<Value>)
    ensures r.Some? <==> exists j :: 0 <= j < |given| && given[j].0 == k
    ensures r.Some? ==> exists j :: 0 <= j < |given| && given[j] == (k, r.value) &&
                                    forall i :: j < i < |given| ==> given[i].0 != k
    decreases |given|
  {
    if |given| == 0 then None
    else
      var last := given[|given| - 1];
      var init := given[..|given| - 1];
      assert forall j :: 0 <= j < |init| ==> init[j] == given[j];
      if last.0 == k then Some(last.1) else LastGiven(init, k)
  }

  lemma {:induction false} LastGivenCons(x: (Key, Value), rest: Options, k: Key)
    ensures LastGiven([x] + rest, k) == if LastGiven(rest, k).Some? then LastGiven(rest, k)
                                         else if x.0 == k then Some(x.1) else None
    decreases |rest|
  {
    var given := [x] + rest;
    if |rest| > 0 {
      assert given[..|given| - 1] == [x] + rest[..|rest| - 1];
      assert given[|given| - 1] == rest[|rest| - 1];
      LastGivenCons(x, rest[..|rest| - 1], k);
    } else {
      assert given[..|given| - 1] == [];
    }
  }

  /**
   * After the option loop succeeds, each key holds the value of its last
   * given entry, and a key that is not given keeps its value in `opts`.
   */
  lemma {:induction false} ConfiguredGet(opts: Options, given: Options, k: Key)
    requires Configured(opts, given).Ok?
    ensures Get(Configured(opts, given).value, k) ==
            if LastGiven(given, k).Some? then LastGiven(given, k) else Get(opts, k)
    decreases |given|
  {
    if |given| > 0 {
      var next := WithOption(opts, given[0].0, given[0].1).value;
      assert given == [given[0]] + given[1..];
      LastGivenCons(given[0], given[1..], k);
      ConfiguredGet(next, given[1..], k);
    }
  }

  // --------------------------------------------------------------- requests

  /** `sendRequest`: a failed transfer or a status other than 200 is a runtime error; otherwise the whole body. */
  function SendRequest(t: Transfer): (r: Result<string>)
    ensures r.Ok? <==> t.Completed? && t.code == 200
    ensures r.Ok? ==> r.value == t.data
    ensures t.Failed? ==> r == Err(Runtime(t.message))
    ensures t.Completed? && t.code != 200 ==> r == Err(Runtime(Non200Message))
  {
    match t
    case Failed(message, _) => Err(Runtime(message))
    case Completed(code, data) => if code != 200 then Err(Runtime(Non200Message)) else Ok(data)
  }

  // ------------------------------------------------------- older discovery

  /**
   * The `$result` array `discover` fills: for each link whose whole tag
   * holds an `href`, its href under its format, later links overwriting
   * earlier ones of the same format in place.
   */
  function HrefTable(links: seq<LinkMatch>): Entries<string, string>
    decreases |links|
  {
    if |links| == 0 then []
    else
      var table := HrefTable(links[..|links| - 1]);
      var link := links[|links| - 1];
      match ExtractHref(link.tag)
      case Ok(h) => Put(table, link.format, h)
      case Err(_) => table
  }

  /** The link has format `f` and its whole tag holds an `href`. */
  predicate HasHrefFor(link: LinkMatch, f: string)
  {
    link.format == f && ExtractHref(link.tag).Ok?
  }

  /** The position of the last link with format `f` that has an `href`, or -1. */
  function LastHrefIndex(links: seq<LinkMatch>, f: string): (i: int)
    ensures -1 <= i < |links|
    ensures i >= 0 ==> HasHrefFor(links[i], f)
    ensures forall k :: i < k < |links| ==> !HasHrefFor(links[k], f)
    decreases |links|
  {
    if |links| == 0 then -1
    else if HasHrefFor(links[|links| - 1], f) then |links| - 1
    else
      var init := links[..|links| - 1];
      assert forall k :: 0 <= k < |init| ==> init[k] == links[k];
      LastHrefIndex(init, f)
  }

  /** The href of the last link with format `f` that has one. */
  function LastHrefFor(links: seq<LinkMatch>, f: string): (r: Option<string>)
  {
    var i := LastHrefIndex(links, f);
    if i < 0 then None else Some(ExtractHref(links[i].tag).value)
  }

  /** Each format in the table maps to the href of the last link of that format that has one. */
  lemma {:induction false} HrefTableGet(links: seq<LinkMatch>, f: string)
    ensures Get(HrefTable(links), f) == LastHrefFor(links, f)
    decreases |links|
  {
    if |links| > 0 {
      var init := links[..|links| - 1];
      var link := links[|links| - 1];
      HrefTableGet(init, f);
      match ExtractHref(link.tag)
      case Ok(h) => PutGet(HrefTable(init), link.format, h, f);
      case Err(_) =>
    }
  }

  /** The formats of the links that have an `href`, each once, in the order they first appear. */
  function HrefFormats(links: seq<LinkMatch>): (r: seq<string>)
    ensures forall i, j :: 0 <= i < j < |r| ==> r[i] != r[j]
    decreases |links|
  {
    if |links| == 0 then []
    else
      var link := links[|links| - 1];
      var fs := HrefFormats(links[..|links| - 1]);
      if ExtractHref(link.tag).Ok? && link.format !in fs then fs + [link.format] else fs
  }

  /** A format is listed exactly when some link of that format has an `href`. */
  lemma {:induction false} HrefFormatsMembers(links: seq<LinkMatch>, f: string)
    ensures f in HrefFormats(links) <==> LastHrefIndex(links, f) >= 0
    decreases |links|
  {
    if |links| > 0 {
      var init := links[..|links| - 1];
      var last := links[|links| - 1];
      var fs := HrefFormats(init);
      HrefFormatsMembers(init, f);
      assert LastHrefIndex(links, f) == if HasHrefFor(last, f) then |links| - 1 else LastHrefIndex(init, f);
      if ExtractHref(last.tag).Ok? && last.format !in fs {
        assert HrefFormats(links) == fs + [last.format];
        assert f in fs + [last.format] <==> f in fs || f == last.format;
      } else {
        assert HrefFormats(links) == fs;
      }
    }
  }

  /** The table's keys are the href-bearing formats in order of first appearance, each once. */
  lemma {:induction false} HrefTableKeys(links: seq<LinkMatch>)
    ensures Keys(HrefTable(links)) == HrefFormats(links)
    ensures DistinctKeys(HrefTable(links))
    decreases |links|
  {
    if |links| > 0 {
      var init := links[..|links| - 1];
      var link := links[|links| - 1];
      HrefTableKeys(init);
      var table := HrefTable(init);
      match ExtractHref(link.tag)
      case Ok(h) =>
        PutKeys(table, link.format, h);
        assert HasKey(table, link.format) <==> link.format in Keys(table) by {
          assert Get(table, link.format).Some? <==> exists j :: 0 <= j < |table| && table[j].0 == link.format;
          if HasKey(table, link.format) {
            assert Keys(table)[IndexOf(table, link.format)] == link.format;
          }
        }
      case Err(_) =>
    }
  }

  /** In an array with distinct keys, the last key reads back the last value. */
  lemma LastKeyGet(t: Entries<string, string>, keys: seq<string>)
    requires Keys(t) == keys && DistinctKeys(t) && |keys| > 0
    ensures Get(t, keys[|keys| - 1]) == LastValue(t)
  {
    assert t[|t| - 1].0 == keys[|keys| - 1];
    IndexOfUnique(t, t[|t| - 1].0, |t| - 1);
  }

  /** Links without `href` add nothing to the table. */
  lemma {:induction false} HrefTableEmpty(links: seq<LinkMatch>)
    requires forall j :: 0 <= j < |links| ==> ExtractHref(links[j].tag).Err?
    ensures HrefTable(links) == []
    decreases |links|
  {
    if |links| > 0 {
      var init := links[..|links| - 1];
      assert forall j :: 0 <= j < |init| ==> init[j] == links[j];
      HrefTableEmpty(init);
    }
  }

  /**
   * The choice `discover` makes among the links of a page: no link is an
   * error; the `application/json` entry when there is one, else the value
   * of the table's last entry, or null when no link had an `href`.
   */
  function LegacyEndpoint(links: seq<LinkMatch>): (r: Result<Value>)
    ensures |links| == 0 <==> r == Err(InvalidArgument(NoLinksMessage))
    ensures r.Ok? ==> r.value.Null? || r.value.Str?
  {
    if |links| == 0 then Err(InvalidArgument(NoLinksMessage))
    else
      var table := HrefTable(links);
      match Get(table, PreferredFormat)
      case Some(h) => Ok(Str(h))
      case None =>
        match LastValue(table)
        case Some(h) => Ok(Str(h))
        case None => Ok(Null)
  }

  /** The outcome of `discover` for a URL: the page is fetched with `sendRequest`, then its links decide. */
  function LegacyDiscovered(url: string, fetch: string -> Transfer, scan: string -> seq<LinkMatch>): (r: Result<Value>)
    ensures SendRequest(fetch(url)).Err? ==> r == Err(SendRequest(fetch(url)).error)
    ensures SendRequest(fetch(url)).Ok? ==> r == LegacyEndpoint(scan(SendRequest(fetch(url)).value))
  {
    var body :- SendRequest(fetch(url));
    LegacyEndpoint(scan(body))
  }

  /** The last `application/json` link with an `href` wins, wherever it stands. */
  lemma LegacyPrefersLastJson(links: seq<LinkMatch>, h: string)
    requires LastHrefFor(links, PreferredFormat) == Some(h)
    ensures LegacyEndpoint(links) == Ok(Str(h))
  {
    HrefTableGet(links, PreferredFormat);
  }

  /** Links without `href` are skipped; when no link has one the endpoint is null. */
  lemma LegacyNullWithoutHref(links: seq<LinkMatch>)
    requires |links| > 0
    requires forall j :: 0 <= j < |links| ==> ExtractHref(links[j].tag).Err?
    ensures LegacyEndpoint(links) == Ok(Null)
  {
    HrefTableEmpty(links);
  }

  /**
   * The `array_pop` fallback: without an `application/json` link that has an
   * `href`, the result is the href of the last link of the format that first
   * appears last among the links with an `href`.
   */
  lemma LegacyArrayPop(links: seq<LinkMatch>)
    requires LastHrefFor(links, PreferredFormat).None?
    requires |HrefFormats(links)| > 0
    ensures var f := HrefFormats(links)[|HrefFormats(links)| - 1];
            LastHrefFor(links, f).Some? && LegacyEndpoint(links) == Ok(Str(LastHrefFor(links, f).value))
  {
    var fs := HrefFormats(links);
    var f := fs[|fs| - 1];
    var table := HrefTable(links);
    assert |links| > 0;
    HrefTableKeys(links);
    LastKeyGet(table, fs);
    HrefTableGet(links, PreferredFormat);
    HrefTableGet(links, f);
    assert Get(table, PreferredFormat).None?;
    assert LastValue(table) == LastHrefFor(links, f);
  }

  /**
   * Without an `application/json` entry the table's last entry is taken,
   * and an overwritten format keeps its first position, so the result need
   * not come from the last link on the page.
   */
  lemma LegacyLastEntryNotLastLink(t1: string, t2: string, t3: string, h1: string, h2: string, h3: string)
    requires ExtractHref(t1) == Ok(h1) && ExtractHref(t2) == Ok(h2) && ExtractHref(t3) == Ok(h3)
    ensures LegacyEndpoint([LinkMatch(t1, "text/xml", ""), LinkMatch(t2, "Application/JSON", ""),
                            LinkMatch(t3, "text/xml", "")]) == Ok(Str(h2))
  {
    var links := [LinkMatch(t1, "text/xml", ""), LinkMatch(t2, "Application/JSON", ""), LinkMatch(t3, "text/xml", "")];
    assert links[..1] == [links[0]] && links[..2] == [links[0], links[1]];
    assert [links[0]][..0] == [] && [links[0], links[1]][..1] == [links[0]];
    assert HrefTable([links[0]]) == [("text/xml", h1)];
    assert HrefTable(links[..2]) == [("text/xml", h1), ("Application/JSON", h2)];
    assert "text/xml" != "Application/JSON";
    assert HrefTable(links) == [("text/xml", h3), ("Application/JSON", h2)];
    assert "Application/JSON" != PreferredFormat && "text/xml" != PreferredFormat;
  }

  /** The older routine searches the whole tag, so a single link's `href` is found wherever it stands. */
  lemma LegacyFindsTagHref(m: LinkMatch)
    requires ExtractHref(m.tag).Ok?
    ensures LegacyEndpoint([m]) == Ok(Str(ExtractHref(m.tag).value))
  {
    var links := [m];
    assert links[..0] == [];
    assert HrefTable(links) == [(m.format, ExtractHref(m.tag).value)];
  }

  /**
   * The two discovery routines disagree on a page with two JSON links: the
   * discoverer takes the first, the older routine the last.
   */
  lemma DiscoveryPoliciesDiffer(first: LinkMatch, second: LinkMatch, h1: string, h2: string)
    requires first.format == PreferredFormat && second.format == PreferredFormat
    requires ExtractHref(first.attributes) == Ok(h1)
    requires ExtractHref(second.tag) == Ok(h2)
    ensures Endpoint([first, second]) == Ok(h1)
    ensures LegacyEndpoint([first, second]) == Ok(Str(h2))
  {
    var links := [first, second];
    assert links[0].format == PreferredFormat;
    assert Selected(links) == 0;
    assert LastHrefFor(links, PreferredFormat) == Some(h2);
    LegacyPrefersLastJson(links, h2);
  }

  // ------------------------------------------------------------ getObject

  /** A query string counts only when PHP reads it as true: not absent, not empty, not "0". */
  predicate HasQuery(query: Option<string>)
  {
    query.Some? && TruthyString(query.value)
  }

  /** The join between the API URL and the encoded parameters. */
  function Sign(query: Option<string>): (sign: string)
    ensures HasQuery(query) <==> sign == "&"
    ensures !HasQuery(query) <==> sign == "?"
  {
    if HasQuery(query) then "&" else "?"
  }

  /** `isset($parameters[$name])`. */
  predicate ParamSet(params: Entries<Key, Value>, name: string)
  {
    Get(params, StrKey(name)).Some? && Get(params, StrKey(name)).value != Null
  }

  function Param(params: Entries<Key, Value>, name: string): Value
  {
    match Get(params, StrKey(name))
    case Some(v) => v
    case None => Null
  }

  /**
   * The parameters of the API request: the parsed query of the API URL
   * replaces the caller's parameters when there is one; then `url` and
   * `format` are filled in when not set.
   */
  function RequestParameters(params: Entries<Key, Value>, query: Option<string>,
                             parseStr: string -> Entries<Key, Value>, url: string): Entries<Key, Value>
  {
    var base := if HasQuery(query) then parseStr(query.value) else params;
    var withUrl := if ParamSet(base, "url") then base else Put(base, StrKey("url"), Str(url));
    if ParamSet(withUrl, "format") then withUrl else Put(withUrl, StrKey("format"), Str("json"))
  }

  /** The parameters that are kept: the caller's without a query, the parsed query's with one. */
  function BaseParameters(params: Entries<Key, Value>, query: Option<string>,
                          parseStr: string -> Entries<Key, Value>): Entries<Key, Value>
  {
    if HasQuery(query) then parseStr(query.value) else params
  }

  /**
   * `url` and `format` are always set afterwards; a value already set is
   * kept, a missing or null one becomes the resource URL and `json`; and
   * every other parameter is left as it was.
   */
  lemma RequestParametersDefaults(params: Entries<Key, Value>, query: Option<string>,
                                  parseStr: string -> Entries<Key, Value>, url: string, k: Key)
    ensures var base := BaseParameters(params, query, parseStr);
            var ps := RequestParameters(params, query, parseStr, url);
            Param(ps, "url") == (if ParamSet(base, "url") then Param(base, "url") else Str(url)) &&
            Param(ps, "format") == (if ParamSet(base, "format") then Param(base, "format") else Str("json")) &&
            (k != StrKey("url") && k != StrKey("format") ==> Get(ps, k) == Get(base, k))
  {
    var base := BaseParameters(params, query, parseStr);
    var withUrl := if ParamSet(base, "url") then base else Put(base, StrKey("url"), Str(url));
    PutGetAll(base, StrKey("url"), Str(url));
    PutGetAll(withUrl, StrKey("format"), Str("json"));
  }

  /** With a query in the API URL the caller's parameters are discarded. */
  lemma QueryReplacesParameters(params: Entries<Key, Value>, other: Entries<Key, Value>, query: Option<string>,
                                parseStr: string -> Entries<Key, Value>, url: string)
    requires HasQuery(query)
    ensures RequestParameters(params, query, parseStr, url) == RequestParameters(other, query, parseStr, url)
  {
  }

  /** `sprintf('%s%s%s', …)`: the API URL, the join, the encoded parameters. */
  function RequestUrl(api: Value, query: Option<string>, params: Entries<Key, Value>,
                      buildQuery: Entries<Key, Value> -> string): (r: Result<string>)
    ensures r.Err? <==> api.Obj?
    ensures api.Str? ==> r == Ok(api.s + Sign(query) + buildQuery(params))
    ensures api.Null? ==> r == Ok(Sign(query) + buildQuery(params))
  {
    var a :- ToStr(api);
    assert a == "" ==> a + Sign(query) + buildQuery(params) == Sign(query) + buildQuery(params);
    Ok(a + Sign(query) + buildQuery(params))
  }

  /**
   * The `switch` on the format, compared loosely: JSON must decode to an
   * object; the XML branch never succeeds; any other format leaves the
   * body as a string.
   */
  function Decoded(format: Value, body: string, decodeJson: string -> Value, xmlError: string): (r: Result<Value>)
    ensures LooseEqualsWord(format, "json") ==>
              (r.Ok? <==> decodeJson(body).Obj?) && (r.Ok? ==> r.value == decodeJson(body)) &&
              (r.Err? ==> r.error == InvalidArgument(JsonMessage))
    ensures !LooseEqualsWord(format, "json") && LooseEqualsWord(format, "xml") ==> r == Err(InvalidArgument(xmlError))
    ensures !LooseEqualsWord(format, "json") && !LooseEqualsWord(format, "xml") ==> r == Ok(Str(body))
  {
    if LooseEqualsWord(format, "json") then
      var v := decodeJson(body);
      if v.Obj? then Ok(v) else Err(InvalidArgument(JsonMessage))
    else if LooseEqualsWord(format, "xml") then Err(InvalidArgument(xmlError))
    else Ok(Str(body))
  }

  /** The outcome of `getObject` for the API option `api`. */
  function Retrieved(api: Value, url: string, params: Entries<Key, Value>,
                     queryOf: Value -> Option<string>, parseStr: string -> Entries<Key, Value>,
                     buildQuery: Entries<Key, Value> -> string, fetch: string -> Transfer,
                     decodeJson: string -> Value, xmlError: string, video: Option<seq<string>>): (r: Result<EmbedObjects.EmbedObject>)
  {
    var query := queryOf(api);
    var ps := RequestParameters(params, query, parseStr, url);
    var target :- RequestUrl(api, query, ps, buildQuery);
    var body :- SendRequest(fetch(target));
    var decoded :- Decoded(Param(ps, "format"), body, decodeJson, xmlError);
    EmbedObjects.Factory(decoded, video)
  }

  /** Asking for XML never yields an object. */
  lemma XmlNeverSucceeds(api: Value, url: string, params: Entries<Key, Value>,
                         queryOf: Value -> Option<string>, parseStr: string -> Entries<Key, Value>,
                         buildQuery: Entries<Key, Value> -> string, fetch: string -> Transfer,
                         decodeJson: string -> Value, xmlError: string, video: Option<seq<string>>)
    requires !HasQuery(queryOf(api))
    requires Get(params, StrKey("format")) == Some(Str("xml"))
    ensures Retrieved(api, url, params, queryOf, parseStr, buildQuery, fetch, decodeJson, xmlError, video).Err?
  {
    RequestParametersDefaults(params, queryOf(api), parseStr, url, StrKey("format"));
  }

  /** A successful `getObject` wraps a decoded JSON object, with format `json` unless the caller chose another word for it. */
  lemma RetrievedObjectComesFromJson(api: Value, url: string, params: Entries<Key, Value>,
                                     queryOf: Value -> Option<string>, parseStr: string -> Entries<Key, Value>,
                                     buildQuery: Entries<Key, Value> -> string, fetch: string -> Transfer,
                                     decodeJson: string -> Value, xmlError: string, video: Option<seq<string>>)
    requires !ParamSet(BaseParameters(params, queryOf(api), parseStr), "format")
    requires Retrieved(api, url, params, queryOf, parseStr, buildQuery, fetch, decodeJson, xmlError, video).Ok?
    ensures var ps := RequestParameters(params, queryOf(api), parseStr, url);
            var target := RequestUrl(api, queryOf(api), ps, buildQuery).value;
            var body := fetch(target).data;
            decodeJson(body).Obj? &&
            Retrieved(api, url, params, queryOf, parseStr, buildQuery, fetch, decodeJson, xmlError, video) ==
              EmbedObjects.Factory(decodeJson(body), video)
  {
    RequestParametersDefaults(params, queryOf(api), parseStr, url, StrKey("format"));
  }

  // --------------------------------------------------------------- consumer

  /** The outcome of the constructor: the URL check, the options, then discovery when the API is still null. */
  function Constructed(url: string, given: Options, urlParses: bool,
                       fetch: string -> Transfer, scan: string -> seq<LinkMatch>): (r: Result<Options>)
  {
    if !urlParses then Err(InvalidArgument(InvalidUrlMessage(url)))
    else
      var opts :- Configured(DefaultOptions, given);
      if Get(opts, StrKey(ApiOption)) == Some(Null) then
        var api :- LegacyDiscovered(url, fetch, scan);
        Ok(Put(opts, StrKey(ApiOption), api))
      else Ok(opts)
  }

  /** An API given as a string is used as it is, and discovery never runs. */
  lemma ExplicitApiSkipsDiscovery(url: string, api: string, fetch: string -> Transfer, scan: string -> seq<LinkMatch>)
    ensures Constructed(url, [(StrKey(ApiOption), Str(api))], true, fetch, scan) ==
            Ok(Put(DefaultOptions, StrKey(ApiOption), Str(api)))
  {
    var given := [(StrKey(ApiOption), Str(api))];
    assert given[1..] == [];
    assert Accepted(StrKey(ApiOption));
    var opts := Put(DefaultOptions, StrKey(ApiOption), Str(api));
    assert WithOption(DefaultOptions, StrKey(ApiOption), Str(api)) == Ok(opts);
    assert Configured(opts, []) == Ok(opts);
    assert Configured(DefaultOptions, given) == Ok(opts);
    PutGetAll(DefaultOptions, StrKey(ApiOption), Str(api));
  }

  /** Without options the API is discovered from the resource page. */
  lemma NoOptionsDiscovers(url: string, fetch: string -> Transfer, scan: string -> seq<LinkMatch>)
    ensures LegacyDiscovered(url, fetch, scan).Ok? ==>
              Constructed(url, [], true, fetch, scan) ==
              Ok(Put(DefaultOptions, StrKey(ApiOption), LegacyDiscovered(url, fetch, scan).value))
    ensures LegacyDiscovered(url, fetch, scan).Err? ==>
              Constructed(url, [], true, fetch, scan) == Err(LegacyDiscovered(url, fetch, scan).error)
  {
    DefaultOptionValues();
  }

  /** Setting the API to null explicitly still triggers discovery. */
  lemma NullApiDiscovers(url: string, fetch: string -> Transfer, scan: string -> seq<LinkMatch>)
    ensures Constructed(url, [(StrKey(ApiOption), Null)], true, fetch, scan) == Constructed(url, [], true, fetch, scan)
  {
    var given := [(StrKey(ApiOption), Null)];
    assert given[1..] == [];
    DefaultOptionValues();
    var again := Put(DefaultOptions, StrKey(ApiOption), Null);
    assert again == DefaultOptions;
  }

  /** Whatever else is given, a last `api` entry that is not null means the page is never fetched. */
  lemma GivenApiSkipsDiscovery(url: string, given: Options, v: Value,
                               fetch: string -> Transfer, scan: string -> seq<LinkMatch>)
    requires Configured(DefaultOptions, given).Ok?
    requires LastGiven(given, StrKey(ApiOption)) == Some(v) && v != Null
    ensures Constructed(url, given, true, fetch, scan) == Configured(DefaultOptions, given)
  {
    ConfiguredGet(DefaultOptions, given, StrKey(ApiOption));
  }

  /** Conversely, an `api` left out or last given as null is always discovered and stored. */
  lemma NullOrAbsentApiDiscovers(url: string, given: Options,
                                 fetch: string -> Transfer, scan: string -> seq<LinkMatch>)
    requires Configured(DefaultOptions, given).Ok?
    requires LastGiven(given, StrKey(ApiOption)) in {None, Some(Null)}
    ensures LegacyDiscovered(url, fetch, scan).Ok? ==>
              Constructed(url, given, true, fetch, scan) ==
              Ok(Put(Configured(DefaultOptions, given).value, StrKey(ApiOption), LegacyDiscovered(url, fetch, scan).value))
    ensures LegacyDiscovered(url, fetch, scan).Err? ==>
              Constructed(url, given, true, fetch, scan) == Err(LegacyDiscovered(url, fetch, scan).error)
  {
    DefaultOptionValues();
    ConfiguredGet(DefaultOptions, given, StrKey(ApiOption));
  }

  class OEmbed {
    var options: Options
    const url: string

    /** The field defaults and `$this->url = $url`. */
    constructor (url: string)
      ensures this.url == url && options == DefaultOptions
    {
      this.url := url;
      options := DefaultOptions;
    }

    /** `setOption`: a rejected name leaves the options unchanged. */
    method SetOption(option: Key, value: Value) returns (r: Result<()>)
      modifies this
      ensures WithOption(old(options), option, value).Ok? ==>
                r == Ok(()) && options == WithOption(old(options), option, value).value
      ensures WithOption(old(options), option, value).Err? ==>
                r == Err(WithOption(old(options), option, value).error) && options == old(options)
    {
      if !(KeyLooseEqualsWord(option, ApiOption) || KeyLooseEqualsWord(option, TimeoutOption)) {
        return Err(InvalidArgument(InvalidOptionMessage(option)));
      }
      options := Put(options, option, value);
      return Ok(());
    }

    /** `__construct`: parse the URL, apply the given options in order, discover the API when it is still null. */
    static method Create(url: string, given: Options, urlParses: bool,
                         fetch: string -> Transfer, scan: string -> seq<LinkMatch>) returns (r: Result<OEmbed>)
      ensures r.Ok? <==> Constructed(url, given, urlParses, fetch, scan).Ok?
      ensures r.Ok? ==> fresh(r.value) && r.value.url == url &&
                        r.value.options == Constructed(url, given, urlParses, fetch, scan).value
      ensures r.Err? ==> r.error == Constructed(url, given, urlParses, fetch, scan).error
    {
      if !urlParses {
        return Err(InvalidArgument(InvalidUrlMessage(url)));
      }
      var o := new OEmbed(url);
      var i := 0;
      while i < |given|
        invariant 0 <= i <= |given|
        invariant fresh(o) && o.url == url
        invariant Configured(DefaultOptions, given) == Configured(o.options, given[i..])
        modifies o
      {
        var outcome := o.SetOption(given[i].0, given[i].1);
        assert given[i..][1..] == given[i + 1..];
        if outcome.Err? {
          return Err(outcome.error);
        }
        i := i + 1;
      }
      assert given[i..] == [];
      if Get(o.options, StrKey(ApiOption)) == Some(Null) {
        var api := o.Discover(url, fetch, scan);
        if api.Err? {
          return Err(api.error);
        }
        o.options := Put(o.options, StrKey(ApiOption), api.value);
      }
      return Ok(o);
    }

    /** `discover`: the table of hrefs is filled link by link, then the JSON entry or the last entry is taken. */
    method Discover(u: string, fetch: string -> Transfer, scan: string -> seq<LinkMatch>) returns (r: Result<Value>)
      ensures r == LegacyDiscovered(u, fetch, scan)
    {
      var sent := SendRequest(fetch(u));
      if sent.Err? {
        return Err(sent.error);
      }
      var links := scan(sent.value);
      assert LegacyDiscovered(u, fetch, scan) == LegacyEndpoint(links);
      if |links| == 0 {
        return Err(InvalidArgument(NoLinksMessage));
      }
      var result: Entries<string, string> := [];
      var i := 0;
      while i < |links|
        invariant 0 <= i <= |links|
        invariant result == HrefTable(links[..i])
      {
        assert links[..i + 1][..i] == links[..i];
        var hrefs := ExtractHref(links[i].tag);
        if hrefs.Ok? {
          result := Put(result, links[i].format, hrefs.value);
        }
        i := i + 1;
      }
      assert links[..i] == links;
      match Get(result, PreferredFormat) {
        case Some(h) => return Ok(Str(h));
        case None =>
          match LastValue(result) {
            case Some(h) => return Ok(Str(h));
            case None => return Ok(Null);
          }
      }
    }

    /**
     * `getObject`: the parameters are rewritten step by step, the request
     * is sent, the body decoded and handed to the factory.
     */
    method GetObject(parameters: Entries<Key, Value>,
                     queryOf: Value -> Option<string>, parseStr: string -> Entries<Key, Value>,
                     buildQuery: Entries<Key, Value> -> string, fetch: string -> Transfer,
                     decodeJson: string -> Value, xmlError: string, video: Option<seq<string>>)
      returns (r: Result<EmbedObjects.EmbedObject>)
      ensures r == Retrieved(Param(options, ApiOption), url, parameters, queryOf, parseStr, buildQuery,
                             fetch, decodeJson, xmlError, video)
    {
      var api := Param(options, ApiOption);
      var params := parameters;
      var sign := "?";
      var query := queryOf(api);
      if HasQuery(query) {
        sign := "&";
        params := parseStr(query.value);
      }
      if !ParamSet(params, "url") {
        params := Put(params, StrKey("url"), Str(url));
      }
      if !ParamSet(params, "format") {
        params := Put(params, StrKey("format"), Str("json"));
      }
      assert params == RequestParameters(parameters, query, parseStr, url);
      var a := ToStr(api);
      if a.Err? {
        return Err(a.error);
      }
      var body := SendRequest(fetch(a.value + sign + buildQuery(params)));
      if body.Err? {
        return Err(body.error);
      }
      var decoded := Decoded(Param(params, "format"), body.value, decodeJson, xmlError);
      if decoded.Err? {
        return Err(decoded.error);
      }
      return EmbedObjects.Factory(decoded.value, video);
    }
  }
}
