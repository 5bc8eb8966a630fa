/**
 * handleCORS: the Access-Control-Allow-* response headers of the CORS protocol
 * (section 3.2 of the WHATWG Fetch Standard) as this server computes them.
 */
module Cors {
  import opened Types
  import opened Http

  const AllowOriginKey: string := "Access-Control-Allow-Origin"
  const AllowMethodsKey: string := "Access-Control-Allow-Methods"
  const AllowHeadersKey: string := "Access-Control-Allow-Headers"

  const Wildcard: string := "*"
  const DefaultMethods: string := "GET, POST"
  const DefaultHeaders: string := "Content-Type, Authorization"

  /**
   * The Access-Control-Allow-Origin value: the first allowed origin that is "*"
   * or equals the request's Origin, and "*" when none does. A value other than
   * "*" is always the request's own Origin, and only when it is listed.
   */
  function AllowedOrigin(allowedOrigins: seq<string>, origin: string): (value: string)
    ensures value == Wildcard || (value == origin && origin in allowedOrigins)
  {
    if allowedOrigins == [] then Wildcard
    else if allowedOrigins[0] == Wildcard || allowedOrigins[0] == origin then allowedOrigins[0]
    else AllowedOrigin(allowedOrigins[1..], origin)
  }

  /** The elements of `xs` separated by single spaces. */
  function SpaceJoin(xs: seq<string>): string {
    if xs == [] then ""
    else if |xs| == 1 then xs[0]
    else xs[0] + " " + SpaceJoin(xs[1..])
  }

  /** Go's fmt "%s" rendering of a []string: the elements space-separated inside brackets. */
  function FormatList(xs: seq<string>): (s: string)
    ensures |s| >= 2 && s[0] == '[' && s[|s| - 1] == ']'
  {
    "[" + SpaceJoin(xs) + "]"
  }

  /** A configured list if it is non-empty, rendered by FormatList; otherwise the default. */
  function ListValue(xs: seq<string>, default: string): string {
    if |xs| > 0 then FormatList(xs) else default
  }

  /** The header map after handleCORS, given the map before it. */
  function CorsHeaders(h: map<string, string>, r: Request, config: Config): map<string, string> {
    if !config.corsEnabled then h
    else h[AllowOriginKey := AllowedOrigin(config.allowedOrigins, r.origin)]
          [AllowMethodsKey := ListValue(config.allowedMethods, DefaultMethods)]
          [AllowHeadersKey := ListValue(config.allowedHeaders, DefaultHeaders)]
  }

  /**
   * handleCORS itself: each header is first set to its default and then
   * overwritten; the origin loop stops at the first match.
   */
  method HandleCors(w: Header, r: Request, config: Config)
    modifies w
    ensures w.fields == CorsHeaders(old(w.fields), r, config)
  {
    if config.corsEnabled {
      ghost var before := w.fields;
      w.Set(AllowOriginKey, Wildcard);
      if |config.allowedOrigins| > 0 {
        var origins := config.allowedOrigins;
        var origin := r.origin;
        var i := 0;
        while i < |origins|
          invariant 0 <= i <= |origins|
          invariant w.fields == before[AllowOriginKey := Wildcard]
          invariant AllowedOrigin(origins[i..], origin) == AllowedOrigin(origins, origin)
        {
          var allowedOrigin := origins[i];
          if allowedOrigin == Wildcard || allowedOrigin == origin {
            w.Set(AllowOriginKey, allowedOrigin);
            break;
          }
          assert origins[i..][1..] == origins[i + 1..];
          i := i + 1;
        }
      }
      assert w.fields == before[AllowOriginKey := AllowedOrigin(config.allowedOrigins, r.origin)];
      SetListHeader(w, AllowMethodsKey, config.allowedMethods, DefaultMethods);
      SetListHeader(w, AllowHeadersKey, config.allowedHeaders, DefaultHeaders);
    }
  }

  /** The two list headers of handleCORS: set the default, then overwrite it with a non-empty list. */
  method SetListHeader(w: Header, key: string, xs: seq<string>, default: string)
    modifies w
    ensures w.fields == old(w.fields)[key := ListValue(xs, default)]
  {
    w.Set(key, default);
    if |xs| > 0 {
      w.Set(key, FormatList(xs));
    }
  }

  /** First match wins: the value is the earliest origin entry that is "*" or the request's Origin. */
  lemma {:induction false} AllowedOriginFirstMatch(allowedOrigins: seq<string>, origin: string, k: nat)
    requires k < |allowedOrigins|
    requires allowedOrigins[k] == Wildcard || allowedOrigins[k] == origin
    requires forall j :: 0 <= j < k ==> allowedOrigins[j] != Wildcard && allowedOrigins[j] != origin
    ensures AllowedOrigin(allowedOrigins, origin) == allowedOrigins[k]
  {
    if k > 0 {
      AllowedOriginFirstMatch(allowedOrigins[1..], origin, k - 1);
    }
  }

  /** With no matching entry (in particular with an empty list) the value is "*". */
  lemma AllowedOriginNoMatch(allowedOrigins: seq<string>, origin: string)
    requires forall j :: 0 <= j < |allowedOrigins| ==>
               allowedOrigins[j] != Wildcard && allowedOrigins[j] != origin
    ensures AllowedOrigin(allowedOrigins, origin) == Wildcard
  {
  }

  /**
   * The fields of `s` between single spaces, as strings.Split(s, " ") gives
   * them: n spaces make n + 1 fields, and empty fields are kept.
   */
  function SplitOnSpace(s: string): (fields: seq<string>)
    ensures |fields| >= 1
  {
    if s == [] then [""]
    else
      var rest := SplitOnSpace(s[1..]);
      if s[0] == ' ' then [""] + rest
      else [[s[0]] + rest[0]] + rest[1..]
  }

  /** A space-free string followed by a space and more text splits into itself and the fields of the rest. */
  lemma {:induction false} SplitAfterWord(x: string, y: string)
    requires ' ' !in x
    ensures SplitOnSpace(x + " " + y) == [x] + SplitOnSpace(y)
    ensures SplitOnSpace(x) == [x]
    decreases |x|
  {
    if x != [] {
      assert (x + " " + y)[1..] == x[1..] + " " + y;
      SplitAfterWord(x[1..], y);
      assert [x[0]] + x[1..] == x;
    }
  }

  /** The inside of a rendered list splits back, on single spaces, into the list itself. */
  lemma {:induction false} FormatListRoundTrip(xs: seq<string>)
    requires |xs| > 0
    requires forall k :: 0 <= k < |xs| ==> ' ' !in xs[k]
    ensures var s := FormatList(xs); SplitOnSpace(s[1..|s| - 1]) == xs
  {
    var s := FormatList(xs);
    assert s[1..|s| - 1] == SpaceJoin(xs);
    SpaceJoinRoundTrip(xs);
  }

  lemma {:induction false} SpaceJoinRoundTrip(xs: seq<string>)
    requires |xs| > 0
    requires forall k :: 0 <= k < |xs| ==> ' ' !in xs[k]
    ensures SplitOnSpace(SpaceJoin(xs)) == xs
  {
    if |xs| == 1 {
      SplitAfterWord(xs[0], "");
    } else {
      SpaceJoinRoundTrip(xs[1..]);
      SplitAfterWord(xs[0], SpaceJoin(xs[1..]));
      assert [xs[0]] + xs[1..] == xs;
    }
  }

  /** A list value is never a comma-separated list: with comma-free elements it holds no comma at all. */
  lemma {:induction false} FormatListHasNoComma(xs: seq<string>)
    requires forall k :: 0 <= k < |xs| ==> ',' !in xs[k]
    ensures ',' !in FormatList(xs)
  {
    SpaceJoinHasNoComma(xs);
  }

  lemma {:induction false} SpaceJoinHasNoComma(xs: seq<string>)
    requires forall k :: 0 <= k < |xs| ==> ',' !in xs[k]
    ensures ',' !in SpaceJoin(xs)
  {
    if |xs| > 1 {
      SpaceJoinHasNoComma(xs[1..]);
    }
  }

  /** A configured method list ["GET", "POST"] is sent as "[GET POST]", unlike the default "GET, POST". */
  lemma ConfiguredMethodsRendering(h: map<string, string>, r: Request, config: Config)
    requires config.corsEnabled && config.allowedMethods == ["GET", "POST"]
    ensures CorsHeaders(h, r, config)[AllowMethodsKey] == "[GET POST]"
  {
    assert ["GET", "POST"][1..] == ["POST"];
    assert SpaceJoin(["GET", "POST"]) == "GET POST";
  }

  /** With CORS disabled the header map is left exactly as it was. */
  lemma CorsDisabledLeavesHeaders(h: map<string, string>, r: Request, config: Config)
    requires !config.corsEnabled
    ensures CorsHeaders(h, r, config) == h
  {
  }

  /**
   * With CORS enabled exactly the three Access-Control-Allow-* keys are set,
   * each to its first-match or list-or-default value, and no other key changes.
   */
  lemma CorsEnabledSetsThreeKeys(h: map<string, string>, r: Request, config: Config)
    requires config.corsEnabled
    ensures var h' := CorsHeaders(h, r, config);
      && h'.Keys == h.Keys + {AllowOriginKey, AllowMethodsKey, AllowHeadersKey}
      && h'[AllowOriginKey] == AllowedOrigin(config.allowedOrigins, r.origin)
      && h'[AllowMethodsKey] == (if |config.allowedMethods| == 0 then DefaultMethods else FormatList(config.allowedMethods))
      && h'[AllowHeadersKey] == (if |config.allowedHeaders| == 0 then DefaultHeaders else FormatList(config.allowedHeaders))
      && forall k :: k in h && k != AllowOriginKey && k != AllowMethodsKey && k != AllowHeadersKey ==> h'[k] == h[k]
  {
  }
}
