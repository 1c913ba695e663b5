/**
 * A provider: an oEmbed API endpoint, the URL schemes it serves, its
 * website and its name. The constructor normalises a list of mixed scheme
 * entries; `Match` answers whether a URL belongs to the provider.
 */
module Providers {
  import opened Outcomes
  import opened PhpValues
  import opened UrlSchemes

  /** An entry of the scheme list handed to the constructor. */
  datatype SchemeArg =
    | SchemeText(text: string)        // a string, turned into a new URLScheme
    | SchemeObject(scheme: URLScheme) // a URLScheme, kept as it is
    | OtherValue(v: Value)            // anything else, dropped

  /** The entries that survive normalisation, in their original order. */
  function Survivors(args: seq<SchemeArg>): (r: seq<SchemeArg>)
    ensures |r| <= |args|
    ensures forall j :: 0 <= j < |r| ==> !r[j].OtherValue?
  {
    if |args| == 0 then []
    else if args[0].OtherValue? then Survivors(args[1..])
    else [args[0]] + Survivors(args[1..])
  }

  /** The scheme text an entry that survives stands for. */
  function ArgText(a: SchemeArg): string
    requires !a.OtherValue?
  {
    match a
    case SchemeText(t) => t
    case SchemeObject(o) => o.scheme
  }

  /** The scheme texts of the survivors. */
  function SurvivorTexts(args: seq<SchemeArg>): (r: seq<string>)
    ensures |r| == |Survivors(args)|
    ensures forall j :: 0 <= j < |r| ==> r[j] == ArgText(Survivors(args)[j])
  {
    var s := Survivors(args);
    seq(|s|, j requires 0 <= j < |s| => ArgText(s[j]))
  }

  function SchemeTexts(schemes: seq<URLScheme>): (r: seq<string>)
    ensures |r| == |schemes|
    ensures forall j :: 0 <= j < |schemes| ==> r[j] == schemes[j].scheme
  {
    seq(|schemes|, j requires 0 <= j < |schemes| => schemes[j].scheme)
  }

  /** The first-match loop of `match` over scheme texts. */
  function AnyMatches(texts: seq<string>, url: string): bool
  {
    if |texts| == 0 then false
    else SchemeMatches(texts[0], url) || AnyMatches(texts[1..], url)
  }

  /** `match`: an empty scheme list accepts every URL. */
  function ProviderMatches(texts: seq<string>, url: string): bool
  {
    |texts| == 0 || AnyMatches(texts, url)
  }

  /** `k` is what normalising the surviving entry `a` yields. */
  ghost predicate Normalized(a: SchemeArg, k: URLScheme)
    reads k
  {
    && !a.OtherValue?
    && k.scheme == ArgText(a)
    && (a.SchemeObject? ==> k == a.scheme)
    && (a.SchemeText? ==> k.pattern == None)
    && k.Valid()
  }

  /**
   * The loop of the provider constructor: strings become new schemes, schemes
   * are kept (the same objects) and everything else is dropped, in order.
   */
  method NormalizeSchemes(args: seq<SchemeArg>) returns (kept: seq<URLScheme>)
    requires forall j :: 0 <= j < |args| && args[j].SchemeObject? ==> args[j].scheme.Valid()
    ensures |kept| == |Survivors(args)|
    ensures forall j :: 0 <= j < |kept| ==> kept[j].scheme == ArgText(Survivors(args)[j])
    ensures forall j :: 0 <= j < |kept| && Survivors(args)[j].SchemeObject? ==> kept[j] == Survivors(args)[j].scheme
    ensures forall j :: 0 <= j < |kept| && Survivors(args)[j].SchemeText? ==> fresh(kept[j]) && kept[j].pattern == None
    ensures forall j :: 0 <= j < |kept| ==> kept[j].Valid()
  {
    kept := [];
    ghost var surv: seq<SchemeArg> := [];
    var i := 0;
    while i < |args|
      invariant 0 <= i <= |args|
      invariant surv == Survivors(args[..i])
      invariant |kept| == |surv|
      invariant forall j :: 0 <= j < |kept| ==> Normalized(surv[j], kept[j])
      invariant forall j :: 0 <= j < |kept| && surv[j].SchemeText? ==> fresh(kept[j])
    {
      SurvivorsSnoc(args[..i + 1]);
      assert args[..i + 1][..i] == args[..i];
      if args[i].SchemeText? {
        var u := new URLScheme(args[i].text);
        kept := kept + [u];
        surv := surv + [args[i]];
      } else if args[i].SchemeObject? {
        kept := kept + [args[i].scheme];
        surv := surv + [args[i]];
      }
      i := i + 1;
    }
    assert args[..i] == args;
  }

  class Provider {
    const endpoint: Value
    const schemes: seq<URLScheme>
    const url: Value
    const name: Value

    ghost predicate Valid()
      reads schemes
    {
      forall j :: 0 <= j < |schemes| ==> schemes[j].Valid()
    }

    /**
     * Strings become new schemes, schemes are kept (the same objects) and
     * everything else is dropped; the survivors keep their order.
     */
    constructor (endpoint: Value, args: seq<SchemeArg>, url: Value, name: Value)
      requires forall j :: 0 <= j < |args| && args[j].SchemeObject? ==> args[j].scheme.Valid()
      ensures this.endpoint == endpoint && this.url == url && this.name == name
      ensures GetEndpoint() == endpoint && GetUrl() == url && GetName() == name
      ensures GetSchemes() == schemes
      ensures SchemeTexts(schemes) == SurvivorTexts(args)
      ensures forall j :: 0 <= j < |schemes| && Survivors(args)[j].SchemeObject? ==>
                schemes[j] == Survivors(args)[j].scheme
      ensures forall j :: 0 <= j < |schemes| && Survivors(args)[j].SchemeText? ==>
                fresh(schemes[j]) && schemes[j].pattern == None
      ensures Valid()
    {
      var kept := NormalizeSchemes(args);
      assert SchemeTexts(kept) == SurvivorTexts(args);
      this.endpoint := endpoint;
      this.schemes := kept;
      this.url := url;
      this.name := name;
    }

    function GetEndpoint(): Value { endpoint }
    function GetSchemes(): seq<URLScheme> { schemes }
    function GetUrl(): Value { url }
    function GetName(): Value { name }

    /**
     * Tries the schemes in order and stops at the first that matches. Only
     * the schemes' pattern caches change; the answer is the same either way.
     */
    method Match(u: string) returns (b: bool)
      requires Valid()
      modifies schemes
      ensures Valid()
      ensures b == ProviderMatches(SchemeTexts(schemes), u)
      ensures forall j :: 0 <= j < |schemes| ==>
                (schemes[j].pattern == Some(Compile(schemes[j].scheme)) || schemes[j].pattern == old(schemes[j].pattern))
    {
      if |schemes| == 0 {
        return true;
      }
      var i := 0;
      while i < |schemes|
        invariant 0 <= i <= |schemes|
        invariant Valid()
        invariant forall j :: 0 <= j < i ==> !SchemeMatches(schemes[j].scheme, u)
        invariant forall j :: 0 <= j < |schemes| ==>
                    (schemes[j].pattern == Some(Compile(schemes[j].scheme)) || schemes[j].pattern == old(schemes[j].pattern))
      {
        b := schemes[i].Match(u);
        if b {
          AnyMatchesIff(SchemeTexts(schemes), u);
          return;
        }
        i := i + 1;
      }
      AnyMatchesIff(SchemeTexts(schemes), u);
      b := false;
    }
  }

  lemma SurvivorsSnoc(args: seq<SchemeArg>)
    requires |args| > 0
    ensures var init := args[..|args| - 1];
            var last := args[|args| - 1];
            Survivors(args) == Survivors(init) + (if last.OtherValue? then [] else [last])
    decreases |args|
  {
    if |args| > 1 {
      SurvivorsSnoc(args[1..]);
      assert args[1..][..|args[1..]| - 1] == args[..|args| - 1][1..];
    }
  }

  /** The first-match loop finds a scheme exactly when some scheme matches. */
  lemma {:induction false} AnyMatchesIff(texts: seq<string>, url: string)
    ensures AnyMatches(texts, url) <==> exists j :: 0 <= j < |texts| && SchemeMatches(texts[j], url)
    decreases |texts|
  {
    if |texts| > 0 {
      AnyMatchesIff(texts[1..], url);
      if exists j :: 0 <= j < |texts| && SchemeMatches(texts[j], url) {
        var j :| 0 <= j < |texts| && SchemeMatches(texts[j], url);
        if j > 0 {
          assert texts[1..][j - 1] == texts[j];
        }
      }
    }
  }

  /** A scheme list made of strings only. */
  function TextArgs(texts: seq<string>): (r: seq<SchemeArg>)
    ensures |r| == |texts|
    ensures forall j :: 0 <= j < |texts| ==> r[j] == SchemeText(texts[j])
  {
    seq(|texts|, j requires 0 <= j < |texts| => SchemeText(texts[j]))
  }

  /** A list of strings only keeps every string, in order. */
  lemma {:induction false} AllTextsSurvive(texts: seq<string>)
    ensures Survivors(TextArgs(texts)) == TextArgs(texts)
    ensures SurvivorTexts(TextArgs(texts)) == texts
    decreases |texts|
  {
    var args := TextArgs(texts);
    if |texts| > 0 {
      assert args[1..] == TextArgs(texts[1..]);
      AllTextsSurvive(texts[1..]);
      assert Survivors(args) == [args[0]] + Survivors(args[1..]);
    }
  }

  /** A provider with a single scheme accepts exactly the URLs that scheme matches. */
  lemma SingleSchemeProvider(text: string, url: string)
    ensures ProviderMatches([text], url) == SchemeMatches(text, url)
  {
    assert [text][1..] == [];
    assert !AnyMatches([], url);
  }

  /** A provider with two schemes accepts exactly the URLs either of them matches. */
  lemma TwoSchemeProvider(first: string, second: string, url: string)
    ensures ProviderMatches([first, second], url) == (SchemeMatches(first, url) || SchemeMatches(second, url))
  {
    assert [first, second][1..] == [second];
    SingleSchemeProvider(second, url);
  }

  /** A provider without schemes accepts every URL. */
  lemma EmptyProviderMatchesEverything(url: string)
    ensures ProviderMatches([], url)
  {
  }

  /** A provider with schemes accepts a URL iff one of its schemes matches it. */
  lemma ProviderMatchesIff(texts: seq<string>, url: string)
    requires |texts| > 0
    ensures ProviderMatches(texts, url) <==> exists j :: 0 <= j < |texts| && SchemeMatches(texts[j], url)
  {
    AnyMatchesIff(texts, url);
  }

  /** Scheme lists with no string and no URLScheme normalise to nothing: the provider accepts every URL. */
  lemma {:induction false} OnlyOtherValuesMatchEverything(args: seq<SchemeArg>, url: string)
    requires forall j :: 0 <= j < |args| ==> args[j].OtherValue?
    ensures SurvivorTexts(args) == []
    ensures ProviderMatches(SurvivorTexts(args), url)
    decreases |args|
  {
    if |args| > 0 {
      OnlyOtherValuesMatchEverything(args[1..], url);
    }
  }
}
