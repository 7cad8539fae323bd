/** What the request URL looks like for the shipped feed tables: the `force`
    parameter `getData` always adds is never swallowed by a path piece, so every
    request carries a query string, and version 1.0 sends every parameter there. */
module Requests {
  import opened Wrappers
  import opened PhpStrings
  import opened Params
  import opened Feeds
  import opened UrlResolver
  import opened BaseApi
  import FeedsV1_0
  import FeedsV2_0
  import FeedsV2_1

  /** No path parameter of the registry takes its value from the caller's
      `force` parameter. */
  predicate ForceNeverConsumed(reg: Registry)
  {
    forall i :: 0 <= i < |reg| ==> "force" !in Consumed(MatchPathSpec, reg[i].1.pathparms)
  }

  /** The three shipped specs read `date`, `week` and `game`, so a table using
      only them never consumes `force`. */
  lemma StandardSpecsKeepForce(reg: Registry)
    requires StandardSpecs(reg)
    ensures ForceNeverConsumed(reg)
  {
    StandardKeys();
    forall i | 0 <= i < |reg|
      ensures "force" !in Consumed(MatchPathSpec, reg[i].1.pathparms)
    {
      var pp := reg[i].1.pathparms;
      if |pp| == 1 {
        assert KeyOf(MatchPathSpec, pp[0]) in {"date", "week", "game"};
        ConsumedOne(MatchPathSpec, pp);
      } else {
        assert |pp| == 0;
        ConsumedOne(MatchPathSpec, pp);
      }
    }
  }

  /** The caller keys the three shipped specs read. */
  lemma StandardKeys()
    ensures KeyOf(MatchPathSpec, DateSpec) == "date"
    ensures KeyOf(MatchPathSpec, WeekSpec) == "week"
    ensures KeyOf(MatchPathSpec, GameSpec) == "game"
  {
    StandardSpecsParse();
  }

  /** The keys a list of at most one spec consumes. */
  lemma ConsumedOne(read: SpecReader, specs: seq<string>)
    requires |specs| <= 1
    ensures Consumed(read, specs) == if |specs| == 0 then {} else {KeyOf(read, specs[0])}
  {
    if |specs| == 1 {
      assert KeyOf(read, specs[0]) in Consumed(read, specs);
    }
  }

  /** A URL built for a known feed from parameters holding `force` has a
      query string when the registry never consumes `force`. */
  lemma ForceReachesQuery(baseUrl: string, reg: Registry, league: string, season: string,
                          feed: string, format: string, params: Params)
    requires ForceNeverConsumed(reg)
    requires HasKey(params, "force")
    ensures var r := DetermineUrl(baseUrl, reg, league, season, feed, format, params);
      r.Success? ==> '?' in r.value
  {
    var r := DetermineUrl(baseUrl, reg, league, season, feed, format, params);
    if r.Success? {
      ResolveUrl(baseUrl, reg, league, season, feed, format, params);
      var s := Lookup(reg, feed).value;
      var i :| 0 <= i < |reg| && reg[i].0 == feed && reg[i].1 == s;
      var rest := Without(params, Consumed(MatchPathSpec, s.pathparms));
      GetWithout(params, Consumed(MatchPathSpec, s.pathparms), "force");
      assert HasKey(rest, "force");
      var q := Options(rest);
      assert q != "" && q[0] == '?';
      assert EndsWith(r.value, q);
      assert r.value[|r.value| - |q|] == '?';
    }
  }

  /** Every request `getData` sends through a client whose table uses only the
      shipped specs carries a query string. */
  lemma RequestCarriesQuery(api: Api, files: Files, league: string, season: string, feed: string,
                            format: string, kvParams: seq<string>, response: Response)
    requires StandardSpecs(api.feeds)
    ensures var o := GetData(api, files, league, season, feed, format, kvParams, response);
      o.requested.Some? ==> '?' in o.requested.value
  {
    var o := GetData(api, files, league, season, feed, format, kvParams, response);
    if o.requested.Some? {
      RequestMadeIff(api, files, league, season, feed, format, kvParams, response);
      PrepareParts(api, league, season, feed, format, kvParams);
      StandardSpecsKeepForce(api.feeds);
      ForceReachesQuery(api.baseUrl, api.feeds, league, season, feed, format, RequestParams(api, kvParams));
    }
  }

  /** All three shipped tables use only the shipped specs. */
  lemma ShippedTablesStandard()
    ensures StandardSpecs(FeedsV1_0.Table)
    ensures StandardSpecs(FeedsV2_0.Table)
    ensures StandardSpecs(FeedsV2_1.Table)
  {
    FeedsV1_0.Shape();
    FeedsV2_0.OnlyStandardSpecs();
    FeedsV2_1.OnlyStandardSpecs();
  }

  /** A feed without path parameters: its URL is the base, the league, the
      season segment, the endpoint, the format, and every parameter in the
      query. */
  lemma NoPathParmsUrl(baseUrl: string, reg: Registry, league: string, season: string,
                       feed: string, format: string, params: Params)
    requires feed in Names(reg) && Lookup(reg, feed).value.pathparms == []
    ensures var r := DetermineUrl(baseUrl, reg, league, season, feed, format, params);
      var s := Lookup(reg, feed).value;
      && (r.Success? <==> !s.season || season != "")
      && (r.Success? ==>
            r.value == baseUrl + "/" + league + "/" + (if s.season then season + "/" else "")
                       + s.endpoint + "." + format + Options(params))
  {
    var s := Lookup(reg, feed).value;
    var seg := SeasonSegment(s.season, season);
    assert PathSegments(MatchPathSpec, s.pathparms, params) == Success(("", params));
    if seg.Success? {
      var head := baseUrl + "/" + league + "/" + seg.value;
      assert head + "" == head;
      assert DetermineUrl(baseUrl, reg, league, season, feed, format, params)
          == Success(head + s.endpoint + "." + format + Options(params));
    }
  }

  /** Version 1.0 has no path parameters: a known feed's URL is the base, the
      league, the season unless the feed is `current_season`, the feed name as
      endpoint, the format, and every parameter in the query, `game` and
      `date` included. */
  lemma V1_0Url(baseUrl: string, league: string, season: string, feed: string, format: string,
                params: Params)
    requires feed in Names(FeedsV1_0.Table)
    ensures var r := DetermineUrl(baseUrl, FeedsV1_0.Table, league, season, feed, format, params);
      && (r.Success? <==> feed == "current_season" || season != "")
      && (r.Success? ==>
            r.value == baseUrl + "/" + league + "/" + (if feed == "current_season" then "" else season + "/")
                       + feed + "." + format + Options(params))
  {
    FeedsV1_0.LookupShape(feed);
    NoPathParmsUrl(baseUrl, FeedsV1_0.Table, league, season, feed, format, params);
  }
}
