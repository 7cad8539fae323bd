/** The errors `BaseApi` and `MySportsFeeds` raise as `ErrorException`s. */
module ApiErrors {
  datatype Error =
    | NotAuthenticated
    | UnknownFeed(feed: string)
    | UnsupportedFormat(format: string)
    | InvalidParameter(token: string)
    | MissingSeason
    | MalformedPathParm(spec: string)
    | MissingPathParm(parm: string)
    | RequestFailed(status: int)
    | UnrecognizedStoreType
    | MissingStoreLocation
}

/** `getBaseUrlForVersion` and `__determineUrl`: turning a feed request into
    the URL `{baseUrl}/{league}/{season/}{path pieces}{endpoint}.{format}{?options}`. */
module UrlResolver {
  import opened Wrappers
  import opened PhpStrings
  import opened Params
  import opened Feeds
  import opened ApiErrors

  const UrlHead := "https://api.mysportsfeeds.com/v"
  const UrlTail := "/pull"

  /** `getBaseUrlForVersion`: the version string sits between a fixed head and
      a fixed tail, so it can be read back out of the base URL. */
  function BaseUrlForVersion(version: string): (r: string)
    ensures |r| == |UrlHead| + |version| + |UrlTail|
    ensures r[..|UrlHead|] == UrlHead && r[|r| - |UrlTail|..] == UrlTail
    ensures r[|UrlHead|..|r| - |UrlTail|] == version
  {
    var r := UrlHead + version + UrlTail;
    assert r[..|UrlHead|] == UrlHead;
    assert r[|UrlHead|..|r| - |UrlTail|] == version;
    r
  }

  /** Different versions have different base URLs. */
  lemma BaseUrlInjective(a: string, b: string)
    ensures BaseUrlForVersion(a) == BaseUrlForVersion(b) ==> a == b
  {
  }

  /** The season part of the path: `"{season}/"` when the feed needs a season
      (an empty one is refused), nothing at all when it does not. */
  function SeasonSegment(required: bool, season: string): (r: Result<string, Error>)
    ensures r.Failure? <==> required && season == ""
    ensures r.Failure? ==> r.error == MissingSeason
    ensures r.Success? && required ==> r.value == season + "/" && |r.value| > 1
    ensures r.Success? && !required ==> r.value == ""
  {
    if required then
      if season == "" then Failure(MissingSeason) else Success(season + "/")
    else Success("")
  }

  /** A reading of a path spec into its URL segment name and caller key;
      `MatchPathSpec` is the one `__determineUrl` uses. The pieces loop is
      stated over any reading so that its proofs do not depend on the
      pattern's internals. */
  type SpecReader = string -> Option<(string, string)>

  /** The pieces loop of `__determineUrl`: each spec in turn must pass the
      pattern check and find a non-empty value under its caller key; it then
      contributes `"{name}/{value}/"`, and the key is unset so that it does not
      reach the query string. Returns the concatenated pieces and the
      parameters left over. */
  function PathSegments(read: SpecReader, specs: seq<string>, params: Params): (r: Result<(string, Params), Error>)
    ensures r.Failure? ==> r.error.MalformedPathParm? || r.error.MissingPathParm?
  {
    if |specs| == 0 then Success(("", params))
    else
      match read(specs[0])
      case None => Failure(MalformedPathParm(specs[0]))
      case Some((name, parm)) =>
        var v := Get(params, parm);
        if v.None? || v.value == "" then Failure(MissingPathParm(parm))
        else
          var rest :- PathSegments(read, specs[1..], Without(params, {parm}));
          Success((name + "/" + v.value + "/" + rest.0, rest.1))
  }

  /** Every spec passes the pattern check. */
  predicate Readable(read: SpecReader, specs: seq<string>)
  {
    forall k :: 0 <= k < |specs| ==> read(specs[k]).Some?
  }

  /** The URL segment name a spec names (empty for a malformed spec). */
  function NameOf(read: SpecReader, spec: string): string
  {
    match read(spec)
    case Some(m) => m.0
    case None => ""
  }

  /** The caller key a spec names (empty for a malformed spec). */
  function KeyOf(read: SpecReader, spec: string): string
  {
    match read(spec)
    case Some(m) => m.1
    case None => ""
  }

  /** Every spec's caller key holds a non-empty value. */
  predicate ValuesPresent(read: SpecReader, specs: seq<string>, params: Params)
  {
    forall k :: 0 <= k < |specs| ==> Get(params, KeyOf(read, specs[k])).GetOr("") != ""
  }

  /** No two specs name the same caller key (the later one would find it
      already consumed). */
  predicate KeysDistinct(read: SpecReader, specs: seq<string>)
  {
    forall k, l :: 0 <= l < k < |specs| ==> KeyOf(read, specs[l]) != KeyOf(read, specs[k])
  }

  /** What the pieces loop needs to succeed. */
  predicate PathParmsSupplied(read: SpecReader, specs: seq<string>, params: Params)
  {
    Readable(read, specs) && ValuesPresent(read, specs, params) && KeysDistinct(read, specs)
  }

  /** The URL piece a spec contributes: `"{name}/{value}/"`. */
  function Piece(read: SpecReader, spec: string, params: Params): string
  {
    NameOf(read, spec) + "/" + Get(params, KeyOf(read, spec)).GetOr("") + "/"
  }

  /** The URL pieces of all the specs, from the caller's own parameters. */
  function Pieces(read: SpecReader, specs: seq<string>, params: Params): (r: seq<string>)
    ensures |r| == |specs|
  {
    if |specs| == 0 then [] else [Piece(read, specs[0], params)] + Pieces(read, specs[1..], params)
  }

  /** The caller keys the specs consume. */
  function Consumed(read: SpecReader, specs: seq<string>): set<string>
  {
    set k | 0 <= k < |specs| :: KeyOf(read, specs[k])
  }

  /** The pieces only read the caller keys the specs name. */
  lemma {:induction false} PiecesFrame(read: SpecReader, specs: seq<string>, params: Params, parm: string)
    requires forall k :: 0 <= k < |specs| ==> KeyOf(read, specs[k]) != parm
    ensures ValuesPresent(read, specs, Without(params, {parm})) <==> ValuesPresent(read, specs, params)
    ensures Pieces(read, specs, Without(params, {parm})) == Pieces(read, specs, params)
  {
    var p' := Without(params, {parm});
    forall k | 0 <= k < |specs|
      ensures Get(p', KeyOf(read, specs[k])) == Get(params, KeyOf(read, specs[k]))
    {
      GetWithout(params, {parm}, KeyOf(read, specs[k]));
    }
    if |specs| > 0 {
      var tail := specs[1..];
      assert forall k :: 0 <= k < |tail| ==> tail[k] == specs[k + 1];
      PiecesFrame(read, tail, params, parm);
      assert Piece(read, specs[0], p') == Piece(read, specs[0], params);
    }
  }

  lemma JoinEmptyCons(x: string, xs: seq<string>)
    ensures Join("", [x] + xs) == x + Join("", xs)
  {
    if |xs| > 0 {
      assert ([x] + xs)[1..] == xs;
    }
  }

  /** One turn of the pieces loop, for a first spec that passes the pattern
      check and whose caller key has a non-empty value. */
  lemma SegmentsCons(read: SpecReader, specs: seq<string>, params: Params)
    requires |specs| > 0 && read(specs[0]).Some?
    requires Get(params, KeyOf(read, specs[0])).GetOr("") != ""
    ensures var rest := PathSegments(read, specs[1..], Without(params, {KeyOf(read, specs[0])}));
      PathSegments(read, specs, params)
        == if rest.Failure? then Failure(rest.error)
           else Success((Piece(read, specs[0], params) + rest.value.0, rest.value.1))
  {
  }

  /** The pieces loop succeeds exactly when every path parameter is supplied. */
  lemma {:induction false} PathSegmentsSucceeds(read: SpecReader, specs: seq<string>, params: Params)
    ensures PathSegments(read, specs, params).Success? <==> PathParmsSupplied(read, specs, params)
  {
    if |specs| > 0 {
      if read(specs[0]).Some? {
        var key := KeyOf(read, specs[0]);
        if Get(params, key).GetOr("") != "" {
          PathSegmentsSucceeds(read, specs[1..], Without(params, {key}));
          SuppliedStep(read, specs, params);
          SegmentsCons(read, specs, params);
        } else {
          assert !ValuesPresent(read, specs, params);
        }
      } else {
        assert !Readable(read, specs);
      }
    }
  }

  /** When it succeeds, the pieces loop yields the pieces in declared order,
      built from the caller's values, and leaves the caller's other parameters
      in their original order. */
  lemma {:induction false} PathSegmentsValue(read: SpecReader, specs: seq<string>, params: Params)
    requires PathParmsSupplied(read, specs, params)
    ensures PathSegments(read, specs, params)
         == Success((Join("", Pieces(read, specs, params)), Without(params, Consumed(read, specs))))
  {
    if |specs| == 0 {
      WithoutNothing(params);
      assert Consumed(read, specs) == {};
    } else {
      var key := KeyOf(read, specs[0]);
      var p' := Without(params, {key});
      var tail := specs[1..];
      assert Get(params, key).GetOr("") != "";
      SuppliedStep(read, specs, params);
      PathSegmentsValue(read, tail, p');
      SegmentsCons(read, specs, params);
      assert forall k :: 0 <= k < |tail| ==> tail[k] == specs[k + 1];
      PiecesFrame(read, tail, params, key);
      JoinEmptyCons(Piece(read, specs[0], params), Pieces(read, tail, p'));
      ConsumedCons(read, specs);
      WithoutWithout(params, {key}, Consumed(read, tail));
    }
  }

  /** A failure of the pieces loop names a spec that is malformed or the caller
      key of a spec that has no non-empty value. */
  lemma {:induction false} PathSegmentsError(read: SpecReader, specs: seq<string>, params: Params)
    ensures PathSegments(read, specs, params).Failure? ==>
      exists k :: 0 <= k < |specs| &&
        PathSegments(read, specs, params).error
          in {MalformedPathParm(specs[k]), MissingPathParm(KeyOf(read, specs[k]))}
  {
    if |specs| > 0 && read(specs[0]).Some? {
      var key := KeyOf(read, specs[0]);
      if Get(params, key).GetOr("") != "" {
        var tail := specs[1..];
        PathSegmentsError(read, tail, Without(params, {key}));
        SegmentsCons(read, specs, params);
        var r := PathSegments(read, specs, params);
        if r.Failure? {
          var k :| 0 <= k < |tail| &&
            r.error in {MalformedPathParm(tail[k]), MissingPathParm(KeyOf(read, tail[k]))};
          assert tail[k] == specs[k + 1];
        }
      }
    }
  }

  lemma ConsumedCons(read: SpecReader, specs: seq<string>)
    requires |specs| > 0
    ensures Consumed(read, specs) == {KeyOf(read, specs[0])} + Consumed(read, specs[1..])
  {
    var tail := specs[1..];
    assert forall k :: 0 <= k < |tail| ==> tail[k] == specs[k + 1];
  }

  lemma WithoutNothing(p: Params)
    ensures Without(p, {}) == p
  {
  }

  /** Consuming the first spec's key turns the condition on the whole list into
      the condition on the rest of the list over the remaining parameters. */
  lemma SuppliedStep(read: SpecReader, specs: seq<string>, params: Params)
    requires |specs| > 0 && read(specs[0]).Some?
    requires Get(params, KeyOf(read, specs[0])).GetOr("") != ""
    ensures PathParmsSupplied(read, specs, params)
        <==> PathParmsSupplied(read, specs[1..], Without(params, {KeyOf(read, specs[0])}))
  {
    if PathParmsSupplied(read, specs, params) {
      SuppliedTail(read, specs, params);
    }
    if PathParmsSupplied(read, specs[1..], Without(params, {KeyOf(read, specs[0])})) {
      SuppliedCons(read, specs, params);
    }
  }

  lemma SuppliedTail(read: SpecReader, specs: seq<string>, params: Params)
    requires |specs| > 0 && PathParmsSupplied(read, specs, params)
    ensures PathParmsSupplied(read, specs[1..], Without(params, {KeyOf(read, specs[0])}))
  {
    var tail := specs[1..];
    assert forall k :: 0 <= k < |tail| ==> tail[k] == specs[k + 1];
    PiecesFrame(read, tail, params, KeyOf(read, specs[0]));
  }

  lemma SuppliedCons(read: SpecReader, specs: seq<string>, params: Params)
    requires |specs| > 0 && read(specs[0]).Some?
    requires Get(params, KeyOf(read, specs[0])).GetOr("") != ""
    requires PathParmsSupplied(read, specs[1..], Without(params, {KeyOf(read, specs[0])}))
    ensures PathParmsSupplied(read, specs, params)
  {
    var key := KeyOf(read, specs[0]);
    var tail := specs[1..];
    assert forall k :: 0 <= k < |tail| ==> tail[k] == specs[k + 1];
    forall k | 0 <= k < |tail| ensures KeyOf(read, tail[k]) != key {
      GetWithout(params, {key}, KeyOf(read, tail[k]));
    }
    PiecesFrame(read, tail, params, key);
    forall k, l | 0 <= l < k < |specs|
      ensures KeyOf(read, specs[l]) != KeyOf(read, specs[k])
    {
      if l > 0 {
        assert KeyOf(read, tail[l - 1]) != KeyOf(read, tail[k - 1]);
      }
    }
  }

  /** One optional parameter as it appears in the query: `key=value`. */
  function Pair(key: string, value: string): string
  {
    key + "=" + value
  }

  /** The options part: `""` when no parameter is left, otherwise `?` and the
      `key=value` pairs joined by `&` in the array's order. Nothing is
      URL-encoded. */
  function Options(params: Params): (r: string)
    ensures r == "" <==> |params| == 0
    ensures r != "" ==> r[0] == '?'
  {
    if |params| == 0 then ""
    else "?" + Join("&", seq(|params|, i requires 0 <= i < |params| => Pair(params[i].0, params[i].1)))
  }

  /** Reading one `key=value` pair back; anything with no `=` or more than one
      is not such a pair. */
  function ParsePair(s: string): (r: Option<(string, string)>)
    ensures r.Some? <==> Count('=', s) == 1
  {
    var kv := Explode('=', s);
    if |kv| == 2 then Some((kv[0], kv[1])) else None
  }

  function ParsePairs(pieces: seq<string>): (r: Option<Params>)
    ensures r.Some? ==> |r.value| == |pieces|
  {
    if |pieces| == 0 then Some([])
    else
      var head :- ParsePair(pieces[0]);
      var tail :- ParsePairs(pieces[1..]);
      Some([head] + tail)
  }

  /** Reading an options string back into the parameters it lists. */
  function ParseOptions(q: string): Option<Params>
  {
    if q == "" then Some([])
    else if q[0] != '?' then None
    else ParsePairs(Explode('&', q[1..]))
  }

  /** No key or value contains a query separator. */
  predicate QuerySafe(params: Params)
  {
    forall i :: 0 <= i < |params| ==>
      && '&' !in params[i].0 && '=' !in params[i].0
      && '&' !in params[i].1 && '=' !in params[i].1
  }

  lemma ParsePairOf(key: string, value: string)
    requires '=' !in key && '=' !in value
    ensures ParsePair(Pair(key, value)) == Some((key, value))
  {
    assert Join("=", [key, value]) == Pair(key, value);
    ExplodeJoin('=', [key, value]);
  }

  lemma {:induction false} ParsePairsOf(params: Params)
    requires QuerySafe(params)
    ensures ParsePairs(seq(|params|, i requires 0 <= i < |params| => Pair(params[i].0, params[i].1))) == Some(params)
  {
    var pieces := seq(|params|, i requires 0 <= i < |params| => Pair(params[i].0, params[i].1));
    if |params| > 0 {
      ParsePairOf(params[0].0, params[0].1);
      var tail := params[1..];
      assert QuerySafe(tail) by {
        assert forall i :: 0 <= i < |tail| ==> tail[i] == params[i + 1];
      }
      ParsePairsOf(tail);
      assert pieces[1..] == seq(|tail|, i requires 0 <= i < |tail| => Pair(tail[i].0, tail[i].1));
      assert params == [params[0]] + tail;
    }
  }

  /** When no key or value contains `&` or `=`, the options string lists the
      parameters left over, in order, and nothing else. */
  lemma OptionsRoundTrip(params: Params)
    requires QuerySafe(params)
    ensures ParseOptions(Options(params)) == Some(params)
  {
    if |params| > 0 {
      var pieces := seq(|params|, i requires 0 <= i < |params| => Pair(params[i].0, params[i].1));
      forall i | 0 <= i < |pieces| ensures '&' !in pieces[i] {
        assert pieces[i] == params[i].0 + "=" + params[i].1;
      }
      ExplodeJoin('&', pieces);
      assert Options(params)[1..] == Join("&", pieces);
      ParsePairsOf(params);
    }
  }

  /** `__determineUrl`. The feed is checked first, then the season, then each
      path parameter in declared order. */
  function DetermineUrl(baseUrl: string, reg: Registry, league: string, season: string,
                        feed: string, format: string, params: Params): (r: Result<string, Error>)
    ensures r.Failure? ==> r.error.UnknownFeed? || r.error.MissingSeason?
                           || r.error.MalformedPathParm? || r.error.MissingPathParm?
  {
    if !VerifyFeedName(reg, feed) then Failure(UnknownFeed(feed))
    else
      var settings := Lookup(reg, feed).value;
      var seasonstring :- SeasonSegment(settings.season, season);
      var pp :- PathSegments(MatchPathSpec, settings.pathparms, params);
      Success(baseUrl + "/" + league + "/" + seasonstring + pp.0 + settings.endpoint + "." + format + Options(pp.1))
  }

  /** `__determineUrl` refuses an unknown feed before anything else, and
      only an unknown feed. */
  lemma UnknownFeedFirst(baseUrl: string, reg: Registry, league: string, season: string,
                         feed: string, format: string, params: Params)
    ensures DetermineUrl(baseUrl, reg, league, season, feed, format, params) == Failure(UnknownFeed(feed))
        <==> feed !in Names(reg)
  {
    if feed in Names(reg) {
      var s := Lookup(reg, feed).value;
      PathSegmentsError(MatchPathSpec, s.pathparms, params);
    }
  }

  /** A known feed that needs a season is refused without one, whatever the
      path parameters. */
  lemma SeasonBeforePathParms(baseUrl: string, reg: Registry, league: string, season: string,
                              feed: string, format: string, params: Params)
    requires feed in Names(reg) && Lookup(reg, feed).value.season && season == ""
    ensures DetermineUrl(baseUrl, reg, league, season, feed, format, params) == Failure(MissingSeason)
  {
  }

  /** What `__determineUrl` answers for a known feed, stated without its loop:
      it succeeds exactly when the season requirement is met and every path
      parameter is supplied, and the URL is then the base URL, the league, the
      season segment, the path pieces in declared order, the endpoint, the
      format, and the options built from exactly the parameters no path piece
      consumed. */
  lemma ResolveUrl(baseUrl: string, reg: Registry, league: string, season: string,
                   feed: string, format: string, params: Params)
    requires feed in Names(reg)
    ensures var r := DetermineUrl(baseUrl, reg, league, season, feed, format, params);
      var s := Lookup(reg, feed).value;
      && (r.Success? <==> (!s.season || season != "") && PathParmsSupplied(MatchPathSpec, s.pathparms, params))
      && (r.Success? ==>
            r.value == baseUrl + "/" + league + "/" + (if s.season then season + "/" else "")
                       + Join("", Pieces(MatchPathSpec, s.pathparms, params)) + s.endpoint + "." + format
                       + Options(Without(params, Consumed(MatchPathSpec, s.pathparms))))
  {
    var s := Lookup(reg, feed).value;
    PathSegmentsSucceeds(MatchPathSpec, s.pathparms, params);
    if PathParmsSupplied(MatchPathSpec, s.pathparms, params) {
      PathSegmentsValue(MatchPathSpec, s.pathparms, params);
    }
  }

  /** No caller key that a path piece consumed reappears in the options. */
  lemma ConsumedKeysLeaveQuery(read: SpecReader, specs: seq<string>, params: Params, k: string)
    requires PathParmsSupplied(read, specs, params)
    requires k in Consumed(read, specs)
    ensures !HasKey(Without(params, Consumed(read, specs)), k)
  {
    GetWithout(params, Consumed(read, specs), k);
  }
}
