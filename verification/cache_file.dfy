/** `__makeOutputFilename`: the name under which a feed response is stored,
    `{feed}-{league}-{season}[-{gameid}][-{fordate}][-{game}][-{date}][-{week}].{format}`. */
module CacheFile {
  import opened Wrappers
  import opened PhpStrings
  import opened Params

  /** The request parameters that distinguish stored responses, in the order
      their values are appended. */
  const CacheKeys: seq<string> := ["gameid", "fordate", "game", "date", "week"]

  /** `-{value}` when the key is present (even with an empty value), nothing
      when it is absent. */
  function KeySuffix(params: Params, key: string): (r: string)
    ensures r == "" <==> !HasKey(params, key)
    ensures HasKey(params, key) ==> r == "-" + Get(params, key).value
  {
    match Get(params, key)
    case Some(v) => "-" + v
    case None => ""
  }

  /** The suffixes of the given keys, in the order given. */
  function Suffixes(params: Params, keys: seq<string>): string
  {
    if |keys| == 0 then "" else KeySuffix(params, keys[0]) + Suffixes(params, keys[1..])
  }

  /** A name built as head, middle, tail starts with the head and ends with the tail. */
  lemma FramedName(head: string, middle: string, tail: string)
    ensures StartsWith(head + middle + tail, head) && EndsWith(head + middle + tail, tail)
  {
    ConcatEnds(head, middle + tail);
    ConcatEnds(head + middle, tail);
    assert head + middle + tail == head + (middle + tail);
  }

  function MakeOutputFilename(league: string, season: string, feed: string, format: string,
                              params: Params): (name: string)
    ensures StartsWith(name, feed + "-" + league + "-" + season)
    ensures EndsWith(name, "." + format)
  {
    var head, suffixes, ext := feed + "-" + league + "-" + season, Suffixes(params, CacheKeys), "." + format;
    FramedName(head, suffixes, ext);
    head + suffixes + ext
  }

  lemma {:induction false} SuffixesAgree(p: Params, q: Params, keys: seq<string>)
    requires forall i :: 0 <= i < |keys| ==> Get(p, keys[i]) == Get(q, keys[i])
    ensures Suffixes(p, keys) == Suffixes(q, keys)
  {
    if |keys| > 0 {
      SuffixesAgree(p, q, keys[1..]);
    }
  }

  /** The filename depends on the parameters only through the five cache keys. */
  lemma FilenameReadsOnlyCacheKeys(league: string, season: string, feed: string, format: string,
                                   p: Params, q: Params)
    requires forall k :: k in CacheKeys ==> Get(p, k) == Get(q, k)
    ensures MakeOutputFilename(league, season, feed, format, p)
         == MakeOutputFilename(league, season, feed, format, q)
  {
    SuffixesAgree(p, q, CacheKeys);
  }

  /** Setting any other parameter — `force` in particular — leaves the
      filename as it was. */
  lemma FilenameIgnoresOtherKeys(league: string, season: string, feed: string, format: string,
                                 p: Params, key: string, value: string)
    requires key !in CacheKeys
    ensures MakeOutputFilename(league, season, feed, format, Put(p, key, value))
         == MakeOutputFilename(league, season, feed, format, p)
  {
    forall k | k in CacheKeys ensures Get(Put(p, key, value), k) == Get(p, k) {
      GetPut(p, key, value, k);
    }
    FilenameReadsOnlyCacheKeys(league, season, feed, format, Put(p, key, value), p);
  }

  /** In an array without repeated keys, reading a key is looking for its pair. */
  lemma GetFindsPair(p: Params, k: string, v: string)
    requires Distinct(p)
    ensures Get(p, k) == Some(v) <==> (k, v) in p
  {
    if (k, v) in p {
      var i :| 0 <= i < |p| && p[i] == (k, v);
    }
  }

  /** Two arrays holding the same key/value pairs, in whatever order, give the
      same filename. */
  lemma FilenameIgnoresOrder(league: string, season: string, feed: string, format: string,
                             p: Params, q: Params)
    requires Distinct(p) && Distinct(q)
    requires forall e :: e in p <==> e in q
    ensures MakeOutputFilename(league, season, feed, format, p)
         == MakeOutputFilename(league, season, feed, format, q)
  {
    forall k | k in CacheKeys ensures Get(p, k) == Get(q, k) {
      match Get(p, k)
      case Some(v) =>
        GetFindsPair(p, k, v);
        GetFindsPair(q, k, v);
      case None =>
        if Get(q, k).Some? {
          GetFindsPair(q, k, Get(q, k).value);
          GetFindsPair(p, k, Get(q, k).value);
        }
    }
    FilenameReadsOnlyCacheKeys(league, season, feed, format, p, q);
  }

  lemma {:induction false} SuffixesAbsent(p: Params, keys: seq<string>)
    requires forall i :: 0 <= i < |keys| ==> !HasKey(p, keys[i])
    ensures Suffixes(p, keys) == ""
  {
    if |keys| > 0 {
      SuffixesAbsent(p, keys[1..]);
    }
  }

  /** The full layout: `{feed}-{league}-{season}`, then `-{value}` for each of
      `gameid`, `fordate`, `game`, `date` and `week` that is present, in that
      order, then `.{format}`. */
  lemma FilenameLayout(league: string, season: string, feed: string, format: string, p: Params)
    ensures MakeOutputFilename(league, season, feed, format, p)
         == feed + "-" + league + "-" + season
            + KeySuffix(p, "gameid") + KeySuffix(p, "fordate") + KeySuffix(p, "game")
            + KeySuffix(p, "date") + KeySuffix(p, "week") + "." + format
  {
    var g, f, a, d, w := KeySuffix(p, "gameid"), KeySuffix(p, "fordate"), KeySuffix(p, "game"),
                         KeySuffix(p, "date"), KeySuffix(p, "week");
    SuffixesCons(p, "week", []);
    SuffixesCons(p, "date", ["week"]);
    SuffixesCons(p, "game", ["date", "week"]);
    SuffixesCons(p, "fordate", ["game", "date", "week"]);
    SuffixesCons(p, "gameid", ["fordate", "game", "date", "week"]);
    assert CacheKeys == ["gameid"] + ["fordate", "game", "date", "week"];
    assert Suffixes(p, []) == "";
    assert w + "" == w;
    assert Suffixes(p, CacheKeys) == g + (f + (a + (d + w)));
    Regroup(feed + "-" + league + "-" + season, g, f, a, d, w, "." + format);
  }

  /** Regrouping the concatenation of the filename parts. */
  lemma Regroup(h: string, g: string, f: string, a: string, d: string, w: string, e: string)
    ensures h + (g + (f + (a + (d + w)))) + e == h + g + f + a + d + w + e
  {
    assert a + (d + w) == a + d + w;
    assert f + (a + d + w) == f + a + d + w;
    assert g + (f + a + d + w) == g + f + a + d + w;
    assert h + (g + f + a + d + w) == h + g + f + a + d + w;
  }

  /** One step of `Suffixes`. */
  lemma SuffixesCons(p: Params, key: string, keys: seq<string>)
    ensures Suffixes(p, [key] + keys) == KeySuffix(p, key) + Suffixes(p, keys)
  {
    assert ([key] + keys)[1..] == keys;
  }

  /** A request without any cache key is stored as `{feed}-{league}-{season}.{format}`. */
  lemma PlainFilename(league: string, season: string, feed: string, format: string, p: Params)
    requires forall k :: k in CacheKeys ==> !HasKey(p, k)
    ensures MakeOutputFilename(league, season, feed, format, p)
         == feed + "-" + league + "-" + season + "." + format
  {
    SuffixesAbsent(p, CacheKeys);
  }
}
