/**
 * The HTTP client: request settings, the status rule applied to a finished
 * transfer, and `getLastResponse`, which `send` applies to what the transfer
 * returns. Headers are not requested, so that is the response body alone.
 */
module Clients {
  import opened Outcomes
  import opened PhpValues

  // ------------------------------------------------------------- splitting

  /** Length of one `\r?\n` at position `j`, or 0 when there is none. */
  function LineBreakLen(s: string, j: nat): (n: nat)
    ensures n <= 2 && (n == 0 || j + n <= |s|)
  {
    if j + 1 < |s| && s[j] == '\r' && s[j + 1] == '\n' then 2
    else if j < |s| && s[j] == '\n' then 1
    else 0
  }

  /** Length of the separator `(\r?\n){2}` matched at position `k`, or 0 when none starts there. */
  function SeparatorLen(s: string, k: nat): (n: nat)
    ensures n == 0 || (2 <= n <= 4 && k + n <= |s|)
  {
    var a := LineBreakLen(s, k);
    if a == 0 then 0
    else
      var b := LineBreakLen(s, k + a);
      if b == 0 then 0 else a + b
  }

  /** The four texts the separator can match. */
  predicate IsSeparator(d: string)
  {
    d == "\n\n" || d == "\r\n\n" || d == "\n\r\n" || d == "\r\n\r\n"
  }

  /**
   * `preg_split` with captured delimiters, scanning from `k` inside the
   * piece that starts at `start`: pieces and separators alternate.
   */
  function SplitFrom(s: string, start: nat, k: nat): seq<string>
    requires start <= k <= |s|
    decreases |s| - k
  {
    if k == |s| then [s[start..]]
    else
      var n := SeparatorLen(s, k);
      if n > 0 then [s[start..k], s[k..k + n]] + SplitFrom(s, k + n, k + n)
      else SplitFrom(s, start, k + 1)
  }

  function Split(s: string): seq<string>
  {
    SplitFrom(s, 0, 0)
  }

  /** `implode('', $parts)`. */
  function Concat(parts: seq<string>): string
  {
    if |parts| == 0 then "" else parts[0] + Concat(parts[1..])
  }

  lemma {:induction false} ConcatAppend(a: seq<string>, b: seq<string>)
    ensures Concat(a + b) == Concat(a) + Concat(b)
    decreases |a|
  {
    if |a| > 0 {
      assert (a + b)[1..] == a[1..] + b;
      ConcatAppend(a[1..], b);
    } else {
      assert a + b == b;
    }
  }

  lemma ConcatPair(x: string, y: string, rest: seq<string>)
    ensures Concat([x, y] + rest) == x + y + Concat(rest)
  {
    assert ([x, y] + rest)[1..] == [y] + rest;
    assert ([y] + rest)[1..] == rest;
  }

  lemma SliceThree(s: string, i: nat, j: nat, k: nat)
    requires i <= j <= k <= |s|
    ensures s[i..] == s[i..j] + s[j..k] + s[k..]
  {
  }

  /** Splitting loses nothing: the parts join back to the text they came from. */
  lemma {:induction false} SplitFromConcat(s: string, start: nat, k: nat)
    requires start <= k <= |s|
    ensures Concat(SplitFrom(s, start, k)) == s[start..]
    decreases |s| - k
  {
    if k < |s| {
      var n := SeparatorLen(s, k);
      if n > 0 {
        var rest := SplitFrom(s, k + n, k + n);
        assert SplitFrom(s, start, k) == [s[start..k], s[k..k + n]] + rest;
        SplitFromConcat(s, k + n, k + n);
        ConcatPair(s[start..k], s[k..k + n], rest);
        SliceThree(s, start, k, k + n);
      } else {
        assert SplitFrom(s, start, k) == SplitFrom(s, start, k + 1);
        SplitFromConcat(s, start, k + 1);
      }
    } else {
      assert SplitFrom(s, start, k) == [s[start..]];
      assert [s[start..]][1..] == [];
    }
  }

  lemma SplitConcat(s: string)
    ensures Concat(Split(s)) == s
  {
    SplitFromConcat(s, 0, 0);
  }

  /** Pieces sit at even positions and separators at odd ones; the last part is a piece. */
  predicate Alternating(parts: seq<string>)
  {
    |parts| % 2 == 1 && forall m :: 0 <= m < |parts| && m % 2 == 1 ==> IsSeparator(parts[m])
  }

  lemma AlternatingCons(a: string, d: string, rest: seq<string>)
    requires IsSeparator(d) && Alternating(rest)
    ensures Alternating([a, d] + rest)
  {
    var parts := [a, d] + rest;
    assert forall m :: 2 <= m < |parts| ==> parts[m] == rest[m - 2];
  }

  /** A separator found by `SeparatorLen` is one of the four separator texts. */
  lemma SeparatorText(s: string, k: nat)
    requires SeparatorLen(s, k) > 0
    ensures IsSeparator(s[k..k + SeparatorLen(s, k)])
  {
    var d := s[k..k + SeparatorLen(s, k)];
    if s[k] == '\r' {
      if s[k + 2] == '\r' { assert d == "\r\n\r\n"; } else { assert d == "\r\n\n"; }
    } else {
      if s[k + 1] == '\r' { assert d == "\n\r\n"; } else { assert d == "\n\n"; }
    }
  }

  lemma {:induction false} SplitFromShape(s: string, start: nat, k: nat)
    requires start <= k <= |s|
    ensures Alternating(SplitFrom(s, start, k))
    decreases |s| - k
  {
    if k < |s| {
      var n := SeparatorLen(s, k);
      if n > 0 {
        SplitFromShape(s, k + n, k + n);
        SeparatorText(s, k);
        AlternatingCons(s[start..k], s[k..k + n], SplitFrom(s, k + n, k + n));
      } else {
        SplitFromShape(s, start, k + 1);
      }
    }
  }

  /** Without a separator anywhere the text is one piece. */
  lemma {:induction false} SplitFromNoSeparator(s: string, start: nat, k: nat)
    requires start <= k <= |s|
    requires forall j :: k <= j < |s| ==> SeparatorLen(s, j) == 0
    ensures SplitFrom(s, start, k) == [s[start..]]
    decreases |s| - k
  {
    if k < |s| {
      SplitFromNoSeparator(s, start, k + 1);
    }
  }

  // ------------------------------------------------------- last response

  /**
   * The search of `getLastResponse`: from part `i` down to part 0 in steps
   * of two, the first part that starts with `http`, ignoring case.
   */
  function LastHttpPart(parts: seq<string>, i: int): (r: Option<nat>)
    requires i < |parts|
    ensures r.Some? ==> r.value <= i && (i - r.value) % 2 == 0 && StartsWithIgnoreCase(parts[r.value], "http")
    ensures r.Some? ==> forall m :: r.value < m <= i && (i - m) % 2 == 0 ==> !StartsWithIgnoreCase(parts[m], "http")
    ensures r.None? ==> forall m :: 0 <= m <= i && (i - m) % 2 == 0 ==> !StartsWithIgnoreCase(parts[m], "http")
    decreases i + 2
  {
    if i < 0 then None
    else if StartsWithIgnoreCase(parts[i], "http") then Some(i)
    else LastHttpPart(parts, i - 2)
  }

  /**
   * What `getLastResponse` keeps of a text: everything from the last piece
   * other than the final one that starts with `http`, or the whole text when
   * there is none.
   */
  function LastResponse(raw: string): string
  {
    var parts := Split(raw);
    match LastHttpPart(parts, |parts| - 3)
    case None => raw
    case Some(m) => Concat(parts[m..])
  }

  /** `getLastResponse`, with its loop. */
  method GetLastResponse(raw: string) returns (r: string)
    ensures r == LastResponse(raw)
  {
    var parts := Split(raw);
    var i := |parts| - 3;
    while i >= 0
      invariant i <= |parts| - 3
      invariant LastHttpPart(parts, |parts| - 3) == LastHttpPart(parts, i)
      decreases i + 2
    {
      if StartsWithIgnoreCase(parts[i], "http") {
        return Concat(parts[i..]);
      }
      i := i - 2;
    }
    return raw;
  }

  /** The last response is always a suffix of the raw text. */
  lemma LastResponseIsSuffix(raw: string)
    ensures |LastResponse(raw)| <= |raw|
    ensures raw[|raw| - |LastResponse(raw)|..] == LastResponse(raw)
  {
    var parts := Split(raw);
    match LastHttpPart(parts, |parts| - 3)
    case None =>
    case Some(m) =>
      SplitConcat(raw);
      assert parts == parts[..m] + parts[m..];
      ConcatAppend(parts[..m], parts[m..]);
  }

  /** A result other than the whole text starts with `http`, ignoring case, and comes from a piece, not the body. */
  lemma LastResponseStartsWithHttp(raw: string)
    requires LastResponse(raw) != raw
    ensures StartsWithIgnoreCase(LastResponse(raw), "http")
  {
    var parts := Split(raw);
    var m := LastHttpPart(parts, |parts| - 3).value;
    ConcatFromHttpPiece(parts, m);
  }

  /** Joining the pieces from one that starts with `http` gives text that starts with `http`. */
  lemma ConcatFromHttpPiece(parts: seq<string>, m: nat)
    requires m < |parts| && StartsWithIgnoreCase(parts[m], "http")
    ensures StartsWithIgnoreCase(Concat(parts[m..]), "http")
  {
    assert parts[m..] == [parts[m]] + parts[m + 1..];
    ConcatAppend([parts[m]], parts[m + 1..]);
    assert Concat([parts[m]]) == parts[m] by {
      assert [parts[m]][1..] == [];
    }
    StartsWithIgnoreCaseExtends(parts[m], Concat(parts[m + 1..]), "http");
  }

  /** A text without a blank line is returned unchanged. */
  lemma NoSeparatorKeepsRaw(raw: string)
    requires forall j :: 0 <= j < |raw| ==> SeparatorLen(raw, j) == 0
    ensures LastResponse(raw) == raw
  {
    SplitFromNoSeparator(raw, 0, 0);
  }

  /**
   * Split alternates pieces and separators, starting and ending with a piece;
   * each piece runs up to the leftmost separator after it, which is taken in
   * full, so no piece holds a separator.
   */
  lemma SplitShape(s: string)
    ensures |Split(s)| % 2 == 1
    ensures forall m :: 0 <= m < |Split(s)| && m % 2 == 1 ==> IsSeparator(Split(s)[m])
    ensures forall m :: 0 <= m < |Split(s)| && m % 2 == 0 ==> LeftmostPiece(Split(s), m)
    ensures forall m :: 0 <= m < |Split(s)| && m % 2 == 0 ==> SeparatorFree(Split(s)[m])
  {
    SplitFromShape(s, 0, 0);
    SplitFromLeftmost(s, 0, 0);
    var parts := Split(s);
    assert AllLeftmost(parts);
    forall m | 0 <= m < |parts| && m % 2 == 0
      ensures SeparatorFree(parts[m])
    {
      LeftmostPieceFree(parts, m);
    }
  }

  /** No separator starts anywhere in `t`. */
  predicate SeparatorFree(t: string)
  {
    forall j :: 0 <= j < |t| ==> SeparatorLen(t, j) == 0
  }

  /**
   * Piece `m`, read in the text it starts, holds no separator, and when a
   * separator follows it, that separator is the one matched where the piece ends.
   */
  predicate LeftmostPiece(parts: seq<string>, m: nat)
    requires m < |parts|
  {
    var t := Concat(parts[m..]);
    && (forall j :: 0 <= j < |parts[m]| ==> SeparatorLen(t, j) == 0)
    && (m + 1 < |parts| ==> SeparatorLen(t, |parts[m]|) == |parts[m + 1]|)
  }

  /** The separator scan of a suffix sees what the scan of the whole text sees. */
  lemma SeparatorLenSuffix(s: string, a: nat, j: nat)
    requires a <= |s|
    ensures SeparatorLen(s[a..], j) == SeparatorLen(s, a + j)
  {
    var t := s[a..];
    assert LineBreakLen(t, j) == LineBreakLen(s, a + j);
    var b := LineBreakLen(t, j);
    assert LineBreakLen(t, j + b) == LineBreakLen(s, a + j + b);
  }

  /** A separator inside `p` is still there, unchanged, when text follows `p`. */
  lemma SeparatorLenExtend(p: string, x: string, j: nat)
    requires SeparatorLen(p, j) > 0
    ensures SeparatorLen(p + x, j) == SeparatorLen(p, j)
  {
    var t := p + x;
    var a := LineBreakLen(p, j);
    assert LineBreakLen(t, j) == a;
    assert LineBreakLen(t, j + a) == LineBreakLen(p, j + a);
  }

  lemma LeftmostPieceFree(parts: seq<string>, m: nat)
    requires m < |parts| && LeftmostPiece(parts, m)
    ensures SeparatorFree(parts[m])
  {
    assert parts[m..] == [parts[m]] + parts[m + 1..];
    ConcatAppend([parts[m]], parts[m + 1..]);
    assert Concat([parts[m]]) == parts[m] by {
      assert [parts[m]][1..] == [];
    }
    forall j | 0 <= j < |parts[m]| && SeparatorLen(parts[m], j) > 0
      ensures false
    {
      SeparatorLenExtend(parts[m], Concat(parts[m + 1..]), j);
    }
  }

  lemma LeftmostPieceCons(a: string, d: string, rest: seq<string>, m: nat)
    requires 2 <= m < |rest| + 2
    requires LeftmostPiece(rest, m - 2)
    ensures LeftmostPiece([a, d] + rest, m)
  {
    var parts := [a, d] + rest;
    assert parts[m..] == rest[m - 2..];
    assert parts[m] == rest[m - 2];
    if m + 1 < |parts| {
      assert parts[m + 1] == rest[m - 1];
    }
  }

  /** The first piece of a split that found a separator at `k` is leftmost. */
  lemma LeftmostFirst(s: string, start: nat, k: nat, parts: seq<string>)
    requires start <= k < |s| && SeparatorLen(s, k) > 0
    requires forall j :: start <= j < k ==> SeparatorLen(s, j) == 0
    requires |parts| >= 2 && Concat(parts) == s[start..]
    requires parts[0] == s[start..k] && parts[1] == s[k..k + SeparatorLen(s, k)]
    ensures LeftmostPiece(parts, 0)
  {
    assert parts[0..] == parts;
    SuffixSeparatorFree(s, start, k);
    SeparatorLenSuffix(s, start, k - start);
  }

  /** A separator-free stretch stays separator-free when read in the suffix it starts. */
  lemma SuffixSeparatorFree(s: string, start: nat, k: nat)
    requires start <= k <= |s|
    requires forall j :: start <= j < k ==> SeparatorLen(s, j) == 0
    ensures forall j :: 0 <= j < k - start ==> SeparatorLen(s[start..], j) == 0
  {
    forall j | 0 <= j < k - start
      ensures SeparatorLen(s[start..], j) == 0
    {
      SeparatorLenSuffix(s, start, j);
    }
  }

  /** Every piece of `parts` is leftmost. */
  predicate AllLeftmost(parts: seq<string>)
  {
    forall m :: 0 <= m < |parts| && m % 2 == 0 ==> LeftmostPiece(parts, m)
  }

  lemma {:induction false} SplitFromLeftmost(s: string, start: nat, k: nat)
    requires start <= k <= |s|
    requires forall j :: start <= j < k ==> SeparatorLen(s, j) == 0
    ensures AllLeftmost(SplitFrom(s, start, k))
    decreases |s| - k
  {
    if k == |s| {
      SplitEndLeftmost(s, start);
    } else {
      var n := SeparatorLen(s, k);
      if n > 0 {
        SplitFromLeftmost(s, k + n, k + n);
        SplitSeparatorLeftmost(s, start, k);
      } else {
        assert forall j :: start <= j < k + 1 ==> SeparatorLen(s, j) == 0;
        SplitFromLeftmost(s, start, k + 1);
        assert SplitFrom(s, start, k) == SplitFrom(s, start, k + 1);
      }
    }
  }

  lemma SplitEndLeftmost(s: string, start: nat)
    requires start <= |s|
    requires forall j :: start <= j < |s| ==> SeparatorLen(s, j) == 0
    ensures AllLeftmost(SplitFrom(s, start, |s|))
  {
    var parts := SplitFrom(s, start, |s|);
    assert parts == [s[start..]];
    assert Concat(parts[0..]) == s[start..] by {
      assert parts[0..] == parts;
      assert parts[1..] == [];
    }
    forall j | 0 <= j < |s| - start
      ensures SeparatorLen(s[start..], j) == 0
    {
      SeparatorLenSuffix(s, start, j);
    }
    assert LeftmostPiece(parts, 0);
  }

  lemma SplitSeparatorLeftmost(s: string, start: nat, k: nat)
    requires start <= k < |s| && SeparatorLen(s, k) > 0
    requires forall j :: start <= j < k ==> SeparatorLen(s, j) == 0
    requires AllLeftmost(SplitFrom(s, k + SeparatorLen(s, k), k + SeparatorLen(s, k)))
    ensures AllLeftmost(SplitFrom(s, start, k))
  {
    var n := SeparatorLen(s, k);
    var parts := SplitFrom(s, start, k);
    var rest := SplitFrom(s, k + n, k + n);
    assert parts == [s[start..k], s[k..k + n]] + rest;
    SplitFromConcat(s, start, k);
    LeftmostFirst(s, start, k, parts);
    AllLeftmostCons(s[start..k], s[k..k + n], rest);
  }

  lemma AllLeftmostCons(a: string, d: string, rest: seq<string>)
    requires AllLeftmost(rest) && LeftmostPiece([a, d] + rest, 0)
    ensures AllLeftmost([a, d] + rest)
  {
    var parts := [a, d] + rest;
    forall m | 2 <= m < |parts| && m % 2 == 0
      ensures LeftmostPiece(parts, m)
    {
      LeftmostPieceCons(a, d, rest, m);
    }
  }

  /** The text holds neither a line feed nor a carriage return. */
  predicate NoLineBreak(t: string)
  {
    forall j :: 0 <= j < |t| ==> t[j] != '\n' && t[j] != '\r'
  }

  /** A stretch without line breaks adds no separator to the scan. */
  lemma {:induction false} SplitFromSkip(s: string, start: nat, k: nat, e: nat)
    requires start <= k <= e <= |s|
    requires forall j :: k <= j < e ==> s[j] != '\n' && s[j] != '\r'
    ensures SplitFrom(s, start, k) == SplitFrom(s, start, e)
    decreases e - k
  {
    if k < e {
      SplitFromSkip(s, start, k + 1, e);
    }
  }

  /** A text with exactly two double line feeds, at `a` and at `c`, splits into three pieces. */
  lemma SplitTwoSeparators(s: string, a: nat, c: nat)
    requires a + 2 <= c && c + 2 <= |s|
    requires SeparatorLen(s, a) == 2 && SeparatorLen(s, c) == 2
    requires forall j :: 0 <= j < a ==> s[j] != '\n' && s[j] != '\r'
    requires forall j :: a + 2 <= j < c ==> s[j] != '\n' && s[j] != '\r'
    requires forall j :: c + 2 <= j < |s| ==> s[j] != '\n' && s[j] != '\r'
    ensures Split(s) == [s[..a], s[a..a + 2], s[a + 2..c], s[c..c + 2], s[c + 2..]]
  {
    SplitFromSkip(s, c + 2, c + 2, |s|);
    var last := SplitFrom(s, c + 2, c + 2);
    assert last == [s[c + 2..]] by {
      assert SplitFrom(s, c + 2, |s|) == [s[c + 2..]];
    }
    SplitOneSeparator(s, a + 2, c);
    var tail := SplitFrom(s, a + 2, a + 2);
    assert tail == [s[a + 2..c], s[c..c + 2], s[c + 2..]];
    SplitOneSeparator(s, 0, a);
    assert s[0..a] == s[..a];
  }

  /** Text without line breaks, then a double line feed at `a`: one piece and one separator. */
  lemma SplitOneSeparator(s: string, start: nat, a: nat)
    requires start <= a && a + 2 <= |s| && SeparatorLen(s, a) == 2
    requires forall j :: start <= j < a ==> s[j] != '\n' && s[j] != '\r'
    ensures SplitFrom(s, start, start) == [s[start..a], s[a..a + 2]] + SplitFrom(s, a + 2, a + 2)
  {
    SplitFromSkip(s, start, start, a);
  }

  /** Everything from piece 2 of five, joined: the third piece, the second separator, the last piece. */
  lemma ConcatLastThree(x: string, y: string, z: string)
    ensures Concat([x, y, z]) == x + y + z
  {
    assert [x, y, z][1..] == [y, z];
    assert [y, z][1..] == [z];
    assert [z][1..] == [];
    assert Concat([z]) == z;
    assert Concat([y, z]) == y + z;
  }

  /**
   * A body with a blank line, then a piece starting with `http`, then another
   * blank line loses everything before that piece: the last response is cut
   * out of the body itself.
   */
  lemma BodyCutAtHttpLine(pre: string, mid: string, post: string)
    requires NoLineBreak(pre) && NoLineBreak(mid) && NoLineBreak(post)
    requires StartsWithIgnoreCase(mid, "http")
    ensures LastResponse(pre + "\n\n" + mid + "\n\n" + post) == mid + "\n\n" + post
  {
    var s := pre + "\n\n" + mid + "\n\n" + post;
    var a := |pre|;
    var c := a + 2 + |mid|;
    assert s[..a] == pre && s[a..a + 2] == "\n\n" && s[a + 2..c] == mid;
    assert s[c..c + 2] == "\n\n" && s[c + 2..] == post;
    assert SeparatorLen(s, a) == 2 && SeparatorLen(s, c) == 2;
    SplitTwoSeparators(s, a, c);
    var parts := Split(s);
    assert parts == [pre, "\n\n", mid, "\n\n", post];
    assert LastHttpPart(parts, 2) == Some(2);
    assert parts[2..] == [mid, "\n\n", post];
    ConcatLastThree(mid, "\n\n", post);
  }

  /** So a successful transfer hands back only the part of the page from that piece on. */
  lemma ReceivedCutsBody(code: int, pre: string, mid: string, post: string)
    requires 200 <= code < 300
    requires NoLineBreak(pre) && NoLineBreak(mid) && NoLineBreak(post)
    requires StartsWithIgnoreCase(mid, "http")
    ensures Received(Completed(code, pre + "\n\n" + mid + "\n\n" + post)) == Ok(mid + "\n\n" + post)
  {
    BodyCutAtHttpLine(pre, mid, post);
  }

  /**
   * The final piece is never tested: with one blank line only, the body comes
   * back whole, even when the piece after the blank line starts with `http`.
   */
  lemma LastPieceNeverCut(pre: string, mid: string)
    requires NoLineBreak(pre) && NoLineBreak(mid)
    ensures LastResponse(pre + "\n\n" + mid) == pre + "\n\n" + mid
  {
    var s := pre + "\n\n" + mid;
    var a := |pre|;
    assert s[..a] == pre && s[a..a + 2] == "\n\n" && s[a + 2..] == mid;
    assert SeparatorLen(s, a) == 2;
    SplitOneSeparator(s, 0, a);
    SplitFromSkip(s, a + 2, a + 2, |s|);
    assert SplitFrom(s, a + 2, |s|) == [s[a + 2..]];
    var parts := Split(s);
    assert parts == [pre, "\n\n", mid];
    assert parts[0..] == parts;
    ConcatLastThree(pre, "\n\n", mid);
  }

  // ----------------------------------------------------------------- client

  /** The options a request hands to the transfer library. */
  datatype RequestOptions = RequestOptions(
    url: string,
    timeout: int,
    followLocation: bool,
    maxRedirects: int,
    failOnError: bool)

  /** What the transfer library reports: a failure with its message and number, or the status and body. */
  datatype Transfer =
    | Failed(message: string, errno: int)
    | Completed(code: int, data: string)

  const Non2xxMessage := "Non-2xx code was returned."

  /**
   * The outcome of `send`: a transfer failure and a status outside
   * 200..299 are runtime errors; otherwise the last response of the body.
   */
  function Received(t: Transfer): (r: Result<string>)
    ensures t.Failed? ==> r == Err(Runtime(t.message))
    ensures t.Completed? && !(200 <= t.code < 300) ==> r == Err(Runtime(Non2xxMessage))
    ensures t.Completed? && 200 <= t.code < 300 ==> r == Ok(LastResponse(t.data))
    ensures r.Ok? <==> t.Completed? && 200 <= t.code < 300
  {
    match t
    case Failed(message, _) => Err(Runtime(message))
    case Completed(code, data) =>
      if 200 > code || code >= 300 then Err(Runtime(Non2xxMessage)) else Ok(LastResponse(data))
  }

  class Client {
    var ignoreErrors: bool
    var maxRedirects: int
    var timeout: int
    const url: string

    constructor (url: string)
      ensures this.url == url
      ensures ignoreErrors && maxRedirects == 5 && timeout == 5
      ensures GetIgnoreErrors() && GetMaxRedirects() == 5 && GetTimeout() == 5
    {
      this.url := url;
      ignoreErrors := true;
      maxRedirects := 5;
      timeout := 5;
    }

    /** The options `send` sets: redirects are followed exactly when some are allowed. */
    function Options(): (o: RequestOptions)
      reads this
      ensures o.url == url && o.timeout == timeout && o.maxRedirects == maxRedirects
      ensures o.followLocation <==> maxRedirects > 0
      ensures o.failOnError <==> !ignoreErrors
    {
      RequestOptions(url, timeout, 0 < maxRedirects, maxRedirects, !ignoreErrors)
    }

    /** `send`, given what the transfer produced. */
    method Send(t: Transfer) returns (r: Result<string>)
      ensures r == Received(t)
    {
      if t.Failed? {
        return Err(Runtime(t.message));
      }
      if 200 > t.code || t.code >= 300 {
        return Err(Runtime(Non2xxMessage));
      }
      var body := GetLastResponse(t.data);
      return Ok(body);
    }

    method SetIgnoreErrors(ignoreErrors: bool)
      modifies this
      ensures this.ignoreErrors == ignoreErrors && GetIgnoreErrors() == ignoreErrors
      ensures maxRedirects == old(maxRedirects) && timeout == old(timeout)
      ensures GetMaxRedirects() == old(GetMaxRedirects()) && GetTimeout() == old(GetTimeout())
    {
      this.ignoreErrors := ignoreErrors;
    }

    function GetIgnoreErrors(): bool
      reads this
    {
      ignoreErrors
    }

    method SetMaxRedirects(maxRedirects: int)
      modifies this
      ensures this.maxRedirects == maxRedirects && GetMaxRedirects() == maxRedirects
      ensures ignoreErrors == old(ignoreErrors) && timeout == old(timeout)
      ensures GetIgnoreErrors() == old(GetIgnoreErrors()) && GetTimeout() == old(GetTimeout())
    {
      this.maxRedirects := maxRedirects;
    }

    function GetMaxRedirects(): int
      reads this
    {
      maxRedirects
    }

    method SetTimeout(timeout: int)
      modifies this
      ensures this.timeout == timeout && GetTimeout() == timeout
      ensures ignoreErrors == old(ignoreErrors) && maxRedirects == old(maxRedirects)
      ensures GetIgnoreErrors() == old(GetIgnoreErrors()) && GetMaxRedirects() == old(GetMaxRedirects())
    {
      this.timeout := timeout;
    }

    function GetTimeout(): int
      reads this
    {
      timeout
    }
  }
}
