// URL schemes such as `http://*.flickr.com/*` and the pattern built from them.
// `buildPatternFromScheme` rewrites the scheme in four steps: `://*.` becomes
// `://` and a placeholder (the dot is dropped), every other `*` becomes the
// placeholder, the text is quoted, and the placeholder becomes `.*`. The
// pattern is then used with the `i` flag and no anchors. Here the pattern is
// a sequence of tokens: a quoted character is `Lit(c)` and `.*` is `Star`.
// In PCRE `.` does not match a line feed, so neither does a `Star` step.
module UrlSchemes {
  import opened Outcomes
  import opened PhpValues

  datatype Token = Lit(c: char) | Star

  function Lits(s: string): (r: seq<Token>)
    ensures |r| == |s|
    ensures forall k :: 0 <= k < |s| ==> r[k] == Lit(s[k])
  {
    seq(|s|, k requires 0 <= k < |s| => Lit(s[k]))
  }

  predicate NoWildcard(s: string)
  {
    forall k :: 0 <= k < |s| ==> s[k] != '*'
  }

  predicate NoLineFeed(s: string)
  {
    forall k :: 0 <= k < |s| ==> s[k] != '\n'
  }

  const SubdomainWildcard := "://*."

  // `s` starts with the sub-domain wildcard, tested character by character.
  predicate SubdomainWildcardAt(s: string)
  {
    |s| >= 5 && s[0] == ':' && s[1] == '/' && s[2] == '/' && s[3] == '*' && s[4] == '.'
  }

  // First rewrite: each `://*.`, left to right, becomes `://` and a placeholder.
  function MarkSubdomainWildcards(s: string): (r: seq<Token>)
    decreases |s|
  {
    if |s| == 0 then []
    else if SubdomainWildcardAt(s) then Lits("://") + [Star] + MarkSubdomainWildcards(s[5..])
    else [Lit(s[0])] + MarkSubdomainWildcards(s[1..])
  }

  /** Second rewrite: every remaining `*` becomes the placeholder. */
  function MarkWildcards(t: seq<Token>): (r: seq<Token>)
    ensures |r| == |t|
    ensures forall k :: 0 <= k < |t| ==> r[k] == (if t[k] == Lit('*') then Star else t[k])
  {
    seq(|t|, k requires 0 <= k < |t| => if t[k] == Lit('*') then Star else t[k])
  }

  /**
   * The pattern of a scheme. Quoting makes every other character literal, so
   * no literal `*` is left and the wildcards are exactly the placeholders.
   */
  function Compile(scheme: string): (p: seq<Token>)
    ensures forall k :: 0 <= k < |p| ==> p[k] != Lit('*')
  {
    MarkWildcards(MarkSubdomainWildcards(scheme))
  }

  /** The pattern matches some prefix of `s` (a match need not reach the end). */
  predicate MatchesPrefix(p: seq<Token>, s: string)
    decreases |s|, |p|
  {
    if |p| == 0 then true
    else match p[0]
      case Lit(c) => |s| > 0 && CharEqualsIgnoreCase(c, s[0]) && MatchesPrefix(p[1..], s[1..])
      case Star => MatchesPrefix(p[1..], s) || (|s| > 0 && s[0] != '\n' && MatchesPrefix(p, s[1..]))
  }

  /** `preg_match` without anchors: the pattern matches from some position of `s`. */
  predicate MatchesAnywhere(p: seq<Token>, s: string)
    decreases |s|
  {
    MatchesPrefix(p, s) || (|s| > 0 && MatchesAnywhere(p, s[1..]))
  }

  predicate SchemeMatches(scheme: string, url: string)
  {
    MatchesAnywhere(Compile(scheme), url)
  }

  // ------------------------------------------------------------------ class

  class URLScheme {
    const scheme: string
    /** The pattern, built on the first `Match` call. */
    var pattern: Option<seq<Token>>

    ghost predicate Valid()
      reads this
    {
      pattern.Some? ==> pattern.value == Compile(scheme)
    }

    constructor (scheme: string)
      ensures this.scheme == scheme && ToString() == scheme
      ensures pattern == None && Valid()
    {
      this.scheme := scheme;
      pattern := None;
    }

    function ToString(): string
    {
      scheme
    }

    /** The answer does not depend on whether the pattern was already built. */
    method Match(url: string) returns (b: bool)
      requires Valid()
      modifies this`pattern
      ensures Valid() && pattern == Some(Compile(scheme))
      ensures b == SchemeMatches(scheme, url)
    {
      if pattern.None? {
        pattern := Some(Compile(scheme));
      }
      b := MatchesAnywhere(pattern.value, url);
    }
  }

  const SchemeNotStringMessage := "The scheme cannot be empty."

  /** `new URLScheme($value)`: any string is accepted, the empty one too; nothing else is. */
  method NewURLScheme(v: Value) returns (r: Result<URLScheme>)
    ensures r.Ok? <==> v.Str?
    ensures r.Ok? ==> fresh(r.value) && r.value.scheme == v.s && r.value.pattern == None
    ensures r.Err? ==> r.error == InvalidArgument(SchemeNotStringMessage)
  {
    if v.Str? {
      var u := new URLScheme(v.s);
      r := Ok(u);
    } else {
      r := Err(InvalidArgument(SchemeNotStringMessage));
    }
  }

  // ----------------------------------------------------------------- lemmas

  /** Unanchored matching is a match of some suffix of the subject. */
  lemma {:induction false} MatchesAnywhereIff(p: seq<Token>, s: string)
    ensures MatchesAnywhere(p, s) <==> exists i :: 0 <= i <= |s| && MatchesPrefix(p, s[i..])
    decreases |s|
  {
    if MatchesAnywhere(p, s) {
      if MatchesPrefix(p, s) {
        assert s[0..] == s;
      } else {
        MatchesAnywhereIff(p, s[1..]);
        var i :| 0 <= i <= |s[1..]| && MatchesPrefix(p, s[1..][i..]);
        assert s[1..][i..] == s[i + 1..];
      }
    }
    if exists i :: 0 <= i <= |s| && MatchesPrefix(p, s[i..]) {
      var i :| 0 <= i <= |s| && MatchesPrefix(p, s[i..]);
      if i > 0 {
        assert s[1..][i - 1..] == s[i..];
        MatchesAnywhereIff(p, s[1..]);
      }
    }
  }

  /** A literal run matches exactly the text equal to it up to ASCII case. */
  lemma {:induction false} LitsPrefix(t: string, q: seq<Token>, s: string)
    ensures MatchesPrefix(Lits(t) + q, s) <==> StartsWithIgnoreCase(s, t) && MatchesPrefix(q, s[|t|..])
    decreases |t|
  {
    if |t| == 0 {
      assert Lits(t) + q == q;
      assert s[0..] == s;
    } else {
      var p := Lits(t) + q;
      assert p[0] == Lit(t[0]);
      assert p[1..] == Lits(t[1..]) + q;
      if |s| > 0 {
        LitsPrefix(t[1..], q, s[1..]);
        if |t| <= |s| {
          assert s[1..][|t| - 1..] == s[|t|..];
          assert s[..|t|][1..] == s[1..][..|t| - 1];
        }
      }
    }
  }

  /** A `Star` step matches any run of characters without a line feed, the empty run included. */
  lemma {:induction false} StarIff(q: seq<Token>, s: string)
    ensures MatchesPrefix([Star] + q, s) <==>
            exists k :: 0 <= k <= |s| && NoLineFeed(s[..k]) && MatchesPrefix(q, s[k..])
    decreases |s|
  {
    var p := [Star] + q;
    assert p[1..] == q;
    if MatchesPrefix(p, s) {
      if MatchesPrefix(q, s) {
        assert s[..0] == [] && s[0..] == s;
      } else {
        assert |s| > 0 && s[0] != '\n' && MatchesPrefix(p, s[1..]);
        StarIff(q, s[1..]);
        var k :| 0 <= k <= |s[1..]| && NoLineFeed(s[1..][..k]) && MatchesPrefix(q, s[1..][k..]);
        assert s[1..][k..] == s[k + 1..];
        assert s[..k + 1] == [s[0]] + s[1..][..k];
      }
    }
    if exists k :: 0 <= k <= |s| && NoLineFeed(s[..k]) && MatchesPrefix(q, s[k..]) {
      var k :| 0 <= k <= |s| && NoLineFeed(s[..k]) && MatchesPrefix(q, s[k..]);
      if k > 0 {
        assert s[..k][0] == s[0];
        assert s[1..][..k - 1] == s[..k][1..];
        assert s[1..][k - 1..] == s[k..];
        StarIff(q, s[1..]);
      } else {
        assert s[0..] == s;
      }
    }
  }

  /** A pattern that matches a prefix of `s` also matches a prefix of any extension of `s`. */
  lemma {:induction false} PrefixExtends(p: seq<Token>, s: string, t: string)
    requires MatchesPrefix(p, s)
    ensures MatchesPrefix(p, s + t)
    decreases |s|, |p|
  {
    if |p| > 0 {
      match p[0]
      case Lit(c) =>
        assert (s + t)[1..] == s[1..] + t;
        PrefixExtends(p[1..], s[1..], t);
      case Star =>
        if MatchesPrefix(p[1..], s) {
          PrefixExtends(p[1..], s, t);
        } else {
          assert (s + t)[1..] == s[1..] + t;
          PrefixExtends(p, s[1..], t);
        }
    }
  }

  /** Matching is unanchored: text added before or after a matching URL keeps it matching. */
  lemma Unanchored(p: seq<Token>, a: string, u: string, b: string)
    requires MatchesAnywhere(p, u)
    ensures MatchesAnywhere(p, a + u + b)
  {
    MatchesAnywhereIff(p, u);
    var i :| 0 <= i <= |u| && MatchesPrefix(p, u[i..]);
    PrefixExtends(p, u[i..], b);
    var s := a + u + b;
    assert s[|a| + i..] == u[i..] + b;
    MatchesAnywhereIff(p, s);
  }

  /** If `p + q` matches a prefix, so does `p` alone. */
  lemma {:induction false} PatternPrefixMatches(p: seq<Token>, q: seq<Token>, s: string)
    requires MatchesPrefix(p + q, s)
    ensures MatchesPrefix(p, s)
    decreases |s|, |p|
  {
    if |p| > 0 {
      var pq := p + q;
      assert pq[0] == p[0];
      assert pq[1..] == p[1..] + q;
      match p[0]
      case Lit(c) =>
        PatternPrefixMatches(p[1..], q, s[1..]);
      case Star =>
        if MatchesPrefix(p[1..] + q, s) {
          PatternPrefixMatches(p[1..], q, s);
        } else {
          PatternPrefixMatches(p, q, s[1..]);
        }
    }
  }

  /** A trailing `Star` adds nothing to an unanchored match. */
  lemma {:induction false} TrailingStar(p: seq<Token>, s: string)
    ensures MatchesPrefix(p + [Star], s) <==> MatchesPrefix(p, s)
    decreases |s|, |p|
  {
    var ps := p + [Star];
    if MatchesPrefix(p + [Star], s) {
      PatternPrefixMatches(p, [Star], s);
    }
    if MatchesPrefix(p, s) {
      if |p| == 0 {
        assert ps == [Star] && ps[1..] == [];
      } else {
        assert ps[0] == p[0];
        assert ps[1..] == p[1..] + [Star];
        match p[0]
        case Lit(c) =>
          TrailingStar(p[1..], s[1..]);
        case Star =>
          if MatchesPrefix(p[1..], s) {
            TrailingStar(p[1..], s);
          } else {
            TrailingStar(p, s[1..]);
          }
      }
    }
  }

  /** A longer pattern ending in a wildcard is subsumed by a shorter one it extends. */
  lemma Subsumes(p: seq<Token>, q: seq<Token>, s: string)
    requires MatchesAnywhere(p + q, s)
    ensures MatchesAnywhere(p + [Star], s)
  {
    MatchesAnywhereIff(p + q, s);
    var i :| 0 <= i <= |s| && MatchesPrefix(p + q, s[i..]);
    PatternPrefixMatches(p, q, s[i..]);
    TrailingStar(p, s[i..]);
    MatchesAnywhereIff(p + [Star], s);
  }

  // ------------------------------------------------------- compilation facts

  lemma {:induction false} MarkSubdomainNoWildcard(s: string)
    requires NoWildcard(s)
    ensures MarkSubdomainWildcards(s) == Lits(s)
    decreases |s|
  {
    if |s| > 0 {
      assert !SubdomainWildcardAt(s);
      MarkSubdomainNoWildcard(s[1..]);
      assert Lits(s) == [Lit(s[0])] + Lits(s[1..]);
    }
  }

  /** A scheme without `*` compiles to its own characters, all quoted. */
  lemma NoWildcardCompiles(s: string)
    requires NoWildcard(s)
    ensures Compile(s) == Lits(s)
  {
    MarkSubdomainNoWildcard(s);
  }

  /** `text` occurs in `url` at position `i`, up to ASCII case. */
  predicate OccursAt(text: string, url: string, i: int)
  {
    0 <= i <= |url| - |text| && EqualsIgnoreCase(url[i..i + |text|], text)
  }

  /**
   * A scheme without `*` matches a URL iff the scheme text occurs somewhere
   * in the URL, up to ASCII case; `.`, `?` and the like are plain characters.
   */
  lemma LiteralSchemeMatchesIff(s: string, url: string)
    requires NoWildcard(s)
    ensures SchemeMatches(s, url) <==> exists i :: OccursAt(s, url, i)
  {
    NoWildcardCompiles(s);
    assert Lits(s) + [] == Lits(s);
    MatchesAnywhereIff(Lits(s), url);
    if SchemeMatches(s, url) {
      var i :| 0 <= i <= |url| && MatchesPrefix(Lits(s), url[i..]);
      LitsPrefix(s, [], url[i..]);
      assert url[i..][..|s|] == url[i..i + |s|];
      assert OccursAt(s, url, i);
    }
    if exists i :: OccursAt(s, url, i) {
      var i :| OccursAt(s, url, i);
      assert url[i..][..|s|] == url[i..i + |s|];
      LitsPrefix(s, [], url[i..]);
      assert MatchesPrefix(Lits(s), url[i..]);
    }
  }

  // With no `*` in `pre` and none in the first three characters of `x`,
  // `pre + x` cannot start with a sub-domain wildcard.
  lemma NoSubdomainWildcardAtJoin(pre: string, x: string)
    requires NoWildcard(pre) && |pre| > 0
    requires forall k :: 0 <= k < |x| && k < 3 ==> x[k] != '*'
    ensures !SubdomainWildcardAt(pre + x)
  {
    var s := pre + x;
    if |s| >= 5 {
      if 3 < |pre| { assert s[3] == pre[3]; } else { assert s[3] == x[3 - |pre|]; }
    }
  }

  lemma {:induction false} MarkSubdomainAppend(pre: string, x: string)
    requires NoWildcard(pre)
    requires forall k :: 0 <= k < |x| && k < 3 ==> x[k] != '*'
    ensures MarkSubdomainWildcards(pre + x) == Lits(pre) + MarkSubdomainWildcards(x)
    decreases |pre|
  {
    if |pre| == 0 {
      assert pre + x == x;
    } else {
      var s := pre + x;
      NoSubdomainWildcardAtJoin(pre, x);
      assert s[0] == pre[0];
      assert MarkSubdomainWildcards(s) == [Lit(pre[0])] + MarkSubdomainWildcards(s[1..]);
      assert s[1..] == pre[1..] + x;
      MarkSubdomainAppend(pre[1..], x);
      assert Lits(pre) == [Lit(pre[0])] + Lits(pre[1..]);
    }
  }

  // The dot after a `://*.` sub-domain wildcard is dropped: the scheme
  // compiles to `pre://`, a wildcard, then the rest.
  lemma SubdomainWildcardCompiles(pre: string, rest: string)
    requires NoWildcard(pre)
    ensures Compile(pre + SubdomainWildcard + rest) == Lits(pre + "://") + [Star] + Compile(rest)
  {
    var x := SubdomainWildcard + rest;
    assert pre + SubdomainWildcard + rest == pre + x;
    MarkSubdomainAppend(pre, x);
    assert SubdomainWildcardAt(x);
    assert x[5..] == rest;
    var m := MarkSubdomainWildcards(rest);
    assert MarkSubdomainWildcards(x) == Lits("://") + [Star] + m;
    var whole := Lits(pre) + (Lits("://") + [Star] + m);
    assert MarkWildcards(whole) == Lits(pre + "://") + [Star] + MarkWildcards(m);
  }

  // Consequence: `pre://*.rest` also matches `pre://` followed directly by a
  // match of `rest`, with no sub-domain at all.
  lemma SubdomainWildcardAllowsBareHost(pre: string, rest: string, v: string)
    requires NoWildcard(pre)
    requires MatchesPrefix(Compile(rest), v)
    ensures SchemeMatches(pre + SubdomainWildcard + rest, pre + "://" + v)
  {
    SubdomainWildcardCompiles(pre, rest);
    var head := pre + "://";
    var u := head + v;
    var q := [Star] + Compile(rest);
    assert Lits(head) + [Star] + Compile(rest) == Lits(head) + q;
    assert u[..|head|] == head;
    assert u[|head|..] == v;
    assert q[1..] == Compile(rest);
    LitsPrefix(head, q, u);
  }

  /** `a` ends with `://`, tested character by character. */
  predicate EndsWithSeparator(a: string)
  {
    |a| >= 3 && a[|a| - 3] == ':' && a[|a| - 2] == '/' && a[|a| - 1] == '/'
  }

  /** A `*` between `a` and `rest` is a sub-domain wildcard when `a` ends with `://` and `rest` starts with a dot. */
  predicate StarIsSubdomain(a: string, rest: string)
  {
    EndsWithSeparator(a) && |rest| > 0 && rest[0] == '.'
  }

  /** The pattern of a concatenation of literal text is the concatenation of the patterns. */
  lemma LitsAppend(a: string, b: string)
    ensures Lits(a + b) == Lits(a) + Lits(b)
  {
  }

  // A `*` after literal text never starts a sub-domain wildcard, and neither
  // does the text before it.
  lemma NoSubdomainWildcardBeforeStar(a: string, rest: string)
    requires NoWildcard(a)
    requires !StarIsSubdomain(a, rest)
    ensures !SubdomainWildcardAt(a + "*" + rest)
  {
    var s := a + "*" + rest;
    if |s| >= 5 {
      if |a| > 3 {
        assert s[3] == a[3];
      } else if |a| == 3 {
        assert s[0] == a[0] && s[1] == a[1] && s[2] == a[2];
        assert s[3] == '*' && s[4] == rest[0];
      } else {
        assert s[|a|] == '*';
      }
    }
  }

  lemma {:induction false} MarkSubdomainStar(a: string, rest: string)
    requires NoWildcard(a)
    requires !StarIsSubdomain(a, rest)
    ensures MarkSubdomainWildcards(a + "*" + rest) == Lits(a) + [Lit('*')] + MarkSubdomainWildcards(rest)
    decreases |a|
  {
    var s := a + "*" + rest;
    NoSubdomainWildcardBeforeStar(a, rest);
    assert MarkSubdomainWildcards(s) == [Lit(s[0])] + MarkSubdomainWildcards(s[1..]);
    if |a| == 0 {
      assert s[0] == '*';
      assert s[1..] == rest;
    } else {
      assert s[0] == a[0];
      assert s[1..] == a[1..] + "*" + rest;
      assert EndsWithSeparator(a[1..]) ==> EndsWithSeparator(a);
      MarkSubdomainStar(a[1..], rest);
      assert Lits(a) == [Lit(a[0])] + Lits(a[1..]);
    }
  }

  // A `*` that is not a sub-domain wildcard (not both after `://` and before
  // a dot) compiles to a wildcard between the literal text before it and the
  // pattern of the rest.
  lemma CompileStar(a: string, rest: string)
    requires NoWildcard(a)
    requires !StarIsSubdomain(a, rest)
    ensures Compile(a + "*" + rest) == Lits(a) + [Star] + Compile(rest)
  {
    MarkSubdomainStar(a, rest);
    var m := MarkSubdomainWildcards(rest);
    var whole := Lits(a) + [Lit('*')] + m;
    assert MarkWildcards(whole) == Lits(a) + [Star] + MarkWildcards(m);
  }

  // A plain `*` before a dot (as in a file-extension scheme `.../*.jpg`)
  // keeps the dot: only a `*.` right after `://` drops it.
  lemma StarBeforeDotCompiles(a: string, t: string)
    requires NoWildcard(a) && NoWildcard(t)
    requires !EndsWithSeparator(a)
    ensures Compile(a + "*." + t) == Lits(a) + [Star] + Lits("." + t)
  {
    assert a + "*." + t == a + "*" + ("." + t);
    CompileStar(a, "." + t);
    NoWildcardCompiles("." + t);
  }

  /** A literal run followed by `q` matches text equal to it up to case, followed by a match of `q`. */
  lemma LitsThen(t: string, q: seq<Token>, u: string, rest: string)
    requires EqualsIgnoreCase(u, t)
    requires MatchesPrefix(q, rest)
    ensures MatchesPrefix(Lits(t) + q, u + rest)
  {
    var s := u + rest;
    assert s[..|t|] == u;
    assert s[|t|..] == rest;
    LitsPrefix(t, q, s);
  }

  /** A wildcard followed by `q` skips any run without a line feed before a match of `q`. */
  lemma StarThen(q: seq<Token>, w: string, rest: string)
    requires NoLineFeed(w)
    requires MatchesPrefix(q, rest)
    ensures MatchesPrefix([Star] + q, w + rest)
  {
    var s := w + rest;
    assert s[..|w|] == w;
    assert s[|w|..] == rest;
    StarIff(q, s);
  }

  /** Text before a match does not prevent an unanchored match. */
  lemma FoundAfter(p: seq<Token>, u: string, rest: string)
    requires MatchesPrefix(p, rest)
    ensures MatchesAnywhere(p, u + rest)
  {
    var s := u + rest;
    assert s[|u|..] == rest;
    MatchesAnywhereIff(p, s);
  }

  /** A pattern that starts with a literal run only matches where that run occurs. */
  lemma LitsNeedOccurrence(t: string, q: seq<Token>, s: string)
    requires MatchesAnywhere(Lits(t) + q, s)
    ensures exists i :: OccursAt(t, s, i)
  {
    MatchesAnywhereIff(Lits(t) + q, s);
    var i :| 0 <= i <= |s| && MatchesPrefix(Lits(t) + q, s[i..]);
    LitsPrefix(t, q, s[i..]);
    assert s[i..][..|t|] == s[i..i + |t|];
    assert OccursAt(t, s, i);
  }

  /** Every literal character of a matching pattern occurs in the subject, up to case. */
  lemma {:induction false} LitCharOccurs(p: seq<Token>, s: string, j: nat)
    requires MatchesPrefix(p, s)
    requires j < |p| && p[j].Lit?
    ensures exists k :: 0 <= k < |s| && CharEqualsIgnoreCase(p[j].c, s[k])
    decreases |s|, |p|
  {
    match p[0]
    case Lit(c) =>
      if j == 0 {
        assert CharEqualsIgnoreCase(p[j].c, s[0]);
      } else {
        LitCharOccurs(p[1..], s[1..], j - 1);
        var k :| 0 <= k < |s[1..]| && CharEqualsIgnoreCase(p[1..][j - 1].c, s[1..][k]);
        assert s[1..][k] == s[k + 1];
      }
    case Star =>
      if MatchesPrefix(p[1..], s) {
        LitCharOccurs(p[1..], s, j - 1);
      } else {
        LitCharOccurs(p, s[1..], j);
        var k :| 0 <= k < |s[1..]| && CharEqualsIgnoreCase(p[j].c, s[1..][k]);
        assert s[1..][k] == s[k + 1];
      }
  }

  /** A URL lacking some literal character of the pattern, in either case, does not match. */
  lemma MissingCharNoMatch(p: seq<Token>, s: string, j: nat)
    requires j < |p| && p[j].Lit?
    requires forall k :: 0 <= k < |s| ==> !CharEqualsIgnoreCase(p[j].c, s[k])
    ensures !MatchesAnywhere(p, s)
  {
    if MatchesAnywhere(p, s) {
      MatchesAnywhereIff(p, s);
      var i :| 0 <= i <= |s| && MatchesPrefix(p, s[i..]);
      LitCharOccurs(p, s[i..], j);
    }
  }

  // `pre://*.t*` compiles to `pre://`, a wildcard, `t` and a trailing wildcard.
  lemma SubdomainSchemeCompiles(pre: string, t: string)
    requires NoWildcard(pre) && NoWildcard(t)
    ensures Compile(pre + SubdomainWildcard + t + "*") == Lits(pre + "://") + [Star] + Lits(t) + [Star]
  {
    SubdomainWildcardCompiles(pre, t + "*");
    CompileStar(t, "");
    assert t + "*" + "" == t + "*";
    assert pre + SubdomainWildcard + t + "*" == pre + SubdomainWildcard + (t + "*");
  }

  // `pre://*.t*` matches `pre://`, then any sub-domain part `w` (possibly
  // empty), then `t` in any case, then anything.
  lemma SubdomainSchemeMatches(pre: string, t: string, w: string, t': string, v: string)
    requires NoWildcard(pre) && NoWildcard(t)
    requires NoLineFeed(w)
    requires EqualsIgnoreCase(t', t)
    ensures SchemeMatches(pre + SubdomainWildcard + t + "*", pre + "://" + w + t' + v)
  {
    SubdomainSchemeCompiles(pre, t);
    var head := pre + "://";
    var tail := Lits(t) + [Star];
    assert Compile(pre + SubdomainWildcard + t + "*") == Lits(head) + ([Star] + tail);
    var star: seq<Token> := [Star];
    assert star[1..] == [];
    assert MatchesPrefix(star, v);
    LitsThen(t, [Star], t', v);
    StarThen(tail, w, t' + v);
    LitsThen(head, [Star] + tail, head, w + (t' + v));
    assert head + (w + (t' + v)) == pre + "://" + w + t' + v;
  }

  // A URL without some character of `t`, in either case, does not match
  // `pre://*.t*`.
  lemma SubdomainSchemeNeedsChar(pre: string, t: string, j: nat, url: string)
    requires NoWildcard(pre) && NoWildcard(t)
    requires j < |t|
    requires forall k :: 0 <= k < |url| ==> !CharEqualsIgnoreCase(t[j], url[k])
    ensures !SchemeMatches(pre + SubdomainWildcard + t + "*", url)
  {
    SubdomainSchemeCompiles(pre, t);
    var p := Lits(pre + "://") + [Star] + Lits(t) + [Star];
    assert p[|pre| + 4 + j] == Lit(t[j]);
    MissingCharNoMatch(p, url, |pre| + 4 + j);
  }

  /** `a*b*`, with `b` not starting with a dot, compiles to two literal runs each followed by a wildcard. */
  lemma TwoPartSchemeCompiles(a: string, b: string)
    requires NoWildcard(a) && NoWildcard(b)
    requires !StarIsSubdomain(a, b)
    ensures Compile(a + "*" + b + "*") == Lits(a) + [Star] + Lits(b) + [Star]
  {
    CompileStar(a, b + "*");
    CompileStar(b, "");
    assert b + "*" + "" == b + "*";
    assert a + "*" + b + "*" == a + "*" + (b + "*");
  }

  /** `a*b*` matches `a`, any run without a line feed, `b`, then anything (with `a`, `b` in any case). */
  lemma TwoPartSchemeMatches(a: string, b: string, a': string, w: string, b': string, v: string)
    requires NoWildcard(a) && NoWildcard(b)
    requires !StarIsSubdomain(a, b)
    requires EqualsIgnoreCase(a', a) && EqualsIgnoreCase(b', b)
    requires NoLineFeed(w)
    ensures SchemeMatches(a + "*" + b + "*", a' + w + b' + v)
  {
    TwoPartSchemeCompiles(a, b);
    var tail := Lits(b) + [Star];
    assert Compile(a + "*" + b + "*") == Lits(a) + ([Star] + tail);
    var star: seq<Token> := [Star];
    assert star[1..] == [];
    assert MatchesPrefix(star, v);
    LitsThen(b, [Star], b', v);
    StarThen(tail, w, b' + v);
    LitsThen(a, [Star] + tail, a', w + (b' + v));
    assert a' + (w + (b' + v)) == a' + w + b' + v;
  }

  /** Literal text followed by a trailing `*` compiles to its characters and a wildcard. */
  lemma TrailingStarCompiles(a: string)
    requires NoWildcard(a)
    ensures Compile(a + "*") == Lits(a) + [Star]
  {
    CompileStar(a, "");
    assert a + "*" + "" == a + "*";
    assert Compile("") == [];
  }

  // Literal text before the rest of a scheme stays literal, unless a `://*.`
  // straddles the join.
  lemma CompileAppend(t: string, rest: string)
    requires NoWildcard(t)
    requires forall k :: 0 <= k < |rest| && k < 3 ==> rest[k] != '*'
    ensures Compile(t + rest) == Lits(t) + Compile(rest)
  {
    MarkSubdomainAppend(t, rest);
    var m := MarkSubdomainWildcards(rest);
    assert MarkWildcards(Lits(t) + m) == Lits(t) + MarkWildcards(m);
  }

  /** A scheme `a` + `b` + `*` of literal text only matches URLs that `a` + `*` matches. */
  lemma LongerPrefixSubsumed(a: string, b: string, url: string)
    requires NoWildcard(a) && NoWildcard(b)
    requires SchemeMatches(a + b + "*", url)
    ensures SchemeMatches(a + "*", url)
  {
    assert NoWildcard(a + b);
    TrailingStarCompiles(a + b);
    TrailingStarCompiles(a);
    LitsAppend(a, b);
    var q := Lits(b) + [Star];
    assert Compile(a + b + "*") == Lits(a) + q;
    Subsumes(Lits(a), q, url);
  }

  // A scheme `pre://*.t` followed by anything only matches URLs that
  // `pre://*.t*` matches.
  lemma SubdomainSchemeSubsumed(pre: string, t: string, rest: string, url: string)
    requires NoWildcard(pre) && NoWildcard(t)
    requires forall k :: 0 <= k < |rest| && k < 3 ==> rest[k] != '*'
    requires SchemeMatches(pre + SubdomainWildcard + t + rest, url)
    ensures SchemeMatches(pre + SubdomainWildcard + t + "*", url)
  {
    assert pre + SubdomainWildcard + t + rest == pre + SubdomainWildcard + (t + rest);
    SubdomainWildcardCompiles(pre, t + rest);
    CompileAppend(t, rest);
    SubdomainSchemeCompiles(pre, t);
    var p := Lits(pre + "://") + [Star] + Lits(t);
    assert Compile(pre + SubdomainWildcard + t + rest) == p + Compile(rest);
    Subsumes(p, Compile(rest), url);
  }

  /** A scheme of literal text and a trailing `*` matches every URL that starts with the text. */
  lemma PrefixSchemeMatchesExtension(a: string, v: string)
    requires NoWildcard(a)
    ensures SchemeMatches(a + "*", a + v)
  {
    TrailingStarCompiles(a);
    var star: seq<Token> := [Star];
    assert star[1..] == [];
    LitsThen(a, [Star], a, v);
  }

  /** A URL without some character of `a`, in either case, does not match `a*`. */
  lemma PrefixSchemeNeedsChar(a: string, j: nat, url: string)
    requires NoWildcard(a)
    requires j < |a|
    requires forall k :: 0 <= k < |url| ==> !CharEqualsIgnoreCase(a[j], url[k])
    ensures !SchemeMatches(a + "*", url)
  {
    TrailingStarCompiles(a);
    MissingCharNoMatch(Lits(a) + [Star], url, j);
  }

  // `a*/*`, with `a` ending in a slash, needs a slash after `a`: `a` followed
  // by one segment without a slash does not match.
  lemma SlashSegmentNeeded(a: string, v: string)
    requires NoWildcard(a) && |a| > 0 && a[|a| - 1] == '/'
    requires forall k :: 0 <= k < |v| ==> v[k] != '/'
    ensures !SchemeMatches(a + "*" + "/" + "*", a + v)
  {
    TwoPartSchemeCompiles(a, "/");
    var s := a + v;
    var q := [Star] + (Lits("/") + [Star]);
    assert Compile(a + "*" + "/" + "*") == Lits(a) + q;
    MatchesAnywhereIff(Lits(a) + q, s);
    forall i | 0 <= i <= |s|
      ensures !MatchesPrefix(Lits(a) + q, s[i..])
    {
      SlashSegmentNoMatchAt(a, v, i);
    }
  }

  lemma SlashSegmentNoMatchAt(a: string, v: string, i: nat)
    requires |a| > 0 && a[|a| - 1] == '/'
    requires forall k :: 0 <= k < |v| ==> v[k] != '/'
    requires i <= |a + v|
    ensures !MatchesPrefix(Lits(a) + ([Star] + (Lits("/") + [Star])), (a + v)[i..])
  {
    var s := a + v;
    var q := [Star] + (Lits("/") + [Star]);
    LitsPrefix(a, q, s[i..]);
    if i == 0 && StartsWithIgnoreCase(s[i..], a) {
      assert s[i..][|a|..] == v;
      StarIff(Lits("/") + [Star], v);
      forall k | 0 <= k <= |v|
        ensures !MatchesPrefix(Lits("/") + [Star], v[k..])
      {
        LitsPrefix("/", [Star], v[k..]);
        if k < |v| {
          assert v[k..][..1][0] == v[k];
        }
      }
    }
  }

  /** A scheme of literal text and one trailing `*` matches iff the text occurs in the URL. */
  lemma PrefixSchemeMatchesIff(pre: string, url: string)
    requires NoWildcard(pre)
    ensures SchemeMatches(pre + "*", url) <==> exists i :: OccursAt(pre, url, i)
  {
    CompileStar(pre, "");
    assert pre + "*" + "" == pre + "*";
    NoWildcardCompiles(pre);
    assert Compile(pre + "*") == Compile(pre) + [Star];
    MatchesAnywhereIff(Compile(pre) + [Star], url);
    MatchesAnywhereIff(Compile(pre), url);
    forall i | 0 <= i <= |url|
      ensures MatchesPrefix(Compile(pre) + [Star], url[i..]) <==> MatchesPrefix(Compile(pre), url[i..])
    {
      TrailingStar(Compile(pre), url[i..]);
    }
    LiteralSchemeMatchesIff(pre, url);
  }

  /** The empty scheme compiles to the empty pattern, which matches every URL. */
  lemma EmptySchemeMatchesEverything(url: string)
    ensures Compile("") == []
    ensures SchemeMatches("", url)
  {
  }
}
