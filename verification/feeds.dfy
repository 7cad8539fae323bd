/** What every API version shares about its feed table: the settings of one
    feed, the table itself, lookup by feed name, and the reading of a
    `name/parm` path-parameter spec by the pattern `([a-z_]+)/([a-z_]+)$`. */
module Feeds {
  import opened Wrappers
  import opened PhpStrings

  /** One feed's settings: whether a season is required, the ordered
      path-parameter specs (`"games/game"` places the caller's `game` value after
      a `games/` segment), and the endpoint segment of the URL. */
  datatype FeedSettings = FeedSettings(season: bool, pathparms: seq<string>, endpoint: string)

  /** A version's `validFeeds` array literal, entries in their written order. */
  type Registry = seq<(string, FeedSettings)>

  function Names(reg: Registry): seq<string>
  {
    seq(|reg|, i requires 0 <= i < |reg| => reg[i].0)
  }

  predicate DistinctNames(reg: Registry)
  {
    forall i, j :: 0 <= i < j < |reg| ==> reg[i].0 != reg[j].0
  }

  /** `$validFeeds[$feed]`. In a PHP array literal a repeated key keeps the
      value written last, so the last entry with this name is the one found. */
  function Lookup(reg: Registry, feed: string): (r: Option<FeedSettings>)
    ensures r.Some? <==> feed in Names(reg)
    ensures r.Some? ==> exists i :: 0 <= i < |reg| && reg[i] == (feed, r.value)
    ensures DistinctNames(reg) ==> forall i :: 0 <= i < |reg| && reg[i].0 == feed ==> r == Some(reg[i].1)
  {
    if |reg| == 0 then None
    else
      var last := |reg| - 1;
      var front := reg[..last];
      assert Names(reg) == Names(front) + [reg[last].0];
      if reg[last].0 == feed then Some(reg[last].1)
      else
        var r := Lookup(front, feed);
        assert forall i :: 0 <= i < last ==> front[i] == reg[i];
        r
  }

  /** `__verifyFeedName`: `array_key_exists($feed, $this->validFeeds)`. */
  function VerifyFeedName(reg: Registry, feed: string): (ok: bool)
    ensures ok <==> feed in Names(reg)
  {
    Lookup(reg, feed).Some?
  }

  predicate IsWordChar(c: char)
  {
    'a' <= c <= 'z' || c == '_'
  }

  /** Every character of `t[lo..hi]` is in the class `[a-z_]`. */
  predicate WordRun(t: string, lo: int, hi: int)
    requires 0 <= lo <= hi <= |t|
  {
    forall k :: lo <= k < hi ==> IsWordChar(t[k])
  }

  /** A non-empty string of `[a-z_]` characters. */
  predicate IsWord(s: string)
  {
    |s| > 0 && WordRun(s, 0, |s|)
  }

  /** The pattern `([a-z_]+)/([a-z_]+)$` matches `t` starting at position `i`. */
  predicate MatchesAt(t: string, i: int)
    requires 0 <= i <= |t|
  {
    exists p :: i < p < |t| - 1 && t[p] == '/' && WordRun(t, i, p) && WordRun(t, p + 1, |t|)
  }

  /** The subject the pattern's `$` can end at: without the PCRE `D` modifier,
      `$` matches at the very end or just before one final newline. */
  function Subject(s: string): string
  {
    if |s| > 0 && s[|s| - 1] == '\n' then s[..|s| - 1] else s
  }

  /** Where the run of `[a-z_]` characters that ends at `hi` begins. */
  function WordStart(t: string, hi: int): (lo: int)
    requires 0 <= hi <= |t|
    ensures 0 <= lo <= hi && WordRun(t, lo, hi)
    ensures lo > 0 ==> !IsWordChar(t[lo - 1])
  {
    if hi > 0 && IsWordChar(t[hi - 1]) then WordStart(t, hi - 1) else hi
  }

  /** A run of word characters ending at `hi` starts no earlier than `WordStart`. */
  lemma WordStartLeast(t: string, lo: int, hi: int)
    requires 0 <= lo <= hi <= |t| && WordRun(t, lo, hi)
    ensures lo >= WordStart(t, hi)
  {
  }

  /** `preg_match('/([a-z_]+)\/([a-z_]+)$/', $spec, $m)`: the two captured
      groups of the leftmost match, or `None` when there is no match. The
      pattern is anchored only at its end, so it accepts any spec whose tail
      has the shape `name/parm`, and the groups are that tail's two words. */
  function MatchPathSpec(spec: string): (r: Option<(string, string)>)
    ensures var t := Subject(spec);
      r.Some? <==> exists i :: 0 <= i <= |t| && MatchesAt(t, i)
    ensures r.Some? ==>
      var t, m := Subject(spec), r.value.0 + "/" + r.value.1;
      && IsWord(r.value.0) && IsWord(r.value.1)
      && EndsWith(t, m) && MatchesAt(t, |t| - |m|)
      && forall i :: 0 <= i < |t| - |m| ==> !MatchesAt(t, i)
  {
    var t := Subject(spec);
    var q := WordStart(t, |t|);
    if q == |t| || q == 0 || t[q - 1] != '/' then
      NoMatch(t);
      None
    else
      var lo := WordStart(t, q - 1);
      if lo == q - 1 then
        NoMatch(t);
        None
      else
        var name, parm := t[lo..q - 1], t[q..];
        assert name + "/" + parm == t[lo..];
        assert MatchesAt(t, lo);
        assert IsWord(name) by {
          forall k | 0 <= k < |name| ensures IsWordChar(name[k]) {
            assert name[k] == t[lo + k];
          }
        }
        assert IsWord(parm) by {
          forall k | 0 <= k < |parm| ensures IsWordChar(parm[k]) {
            assert parm[k] == t[q + k];
          }
        }
        Leftmost(t, lo);
        Some((name, parm))
  }

  /** Where a match must sit: its slash is the one just before the trailing
      word of `t`, and it starts inside the word that precedes that slash. */
  lemma MatchFacts(t: string, i: int) returns (p: int)
    requires 0 <= i <= |t| && MatchesAt(t, i)
    ensures p == WordStart(t, |t|) - 1
    ensures 0 <= i < p < |t| - 1 && t[p] == '/'
    ensures i >= WordStart(t, p)
  {
    p :| i < p < |t| - 1 && t[p] == '/' && WordRun(t, i, p) && WordRun(t, p + 1, |t|);
    WordStartLeast(t, p + 1, |t|);
    WordStartLeast(t, i, p);
  }

  lemma NoMatch(t: string)
    requires var q := WordStart(t, |t|);
      q == |t| || q == 0 || t[q - 1] != '/' || WordStart(t, q - 1) == q - 1
    ensures forall i :: 0 <= i <= |t| ==> !MatchesAt(t, i)
  {
    forall i | 0 <= i <= |t| ensures !MatchesAt(t, i) {
      if MatchesAt(t, i) {
        var _ := MatchFacts(t, i);
      }
    }
  }

  lemma Leftmost(t: string, lo: int)
    requires 0 <= lo <= |t|
    requires var q := WordStart(t, |t|); 0 < q < |t| && t[q - 1] == '/' && lo == WordStart(t, q - 1)
    ensures forall i :: 0 <= i < lo ==> !MatchesAt(t, i)
  {
    forall i | 0 <= i < lo ensures !MatchesAt(t, i) {
      if MatchesAt(t, i) {
        var _ := MatchFacts(t, i);
      }
    }
  }

  /** A run of word characters that cannot be extended to the left is exactly
      what `WordStart` finds. */
  lemma {:induction false} WordStartExact(t: string, lo: int, hi: int)
    requires 0 <= lo <= hi <= |t| && WordRun(t, lo, hi)
    requires lo == 0 || !IsWordChar(t[lo - 1])
    ensures WordStart(t, hi) == lo
    decreases hi
  {
    if hi > lo {
      WordStartExact(t, lo, hi - 1);
    }
  }

  /** A spec written exactly as `name/parm` is read back as that pair. */
  lemma MatchPlainSpec(name: string, parm: string)
    requires IsWord(name) && IsWord(parm)
    ensures MatchPathSpec(name + "/" + parm) == Some((name, parm))
  {
    var t := name + "/" + parm;
    var q := |name| + 1;
    assert t[|t| - 1] == parm[|parm| - 1];
    assert Subject(t) == t;
    forall k | q <= k < |t| ensures IsWordChar(t[k]) {
      assert t[k] == parm[k - q];
    }
    WordStartExact(t, q, |t|);
    forall k | 0 <= k < |name| ensures IsWordChar(t[k]) {
      assert t[k] == name[k];
    }
    WordStartExact(t, 0, |name|);
    assert t[0..q - 1] == name && t[q..] == parm;
  }

  /** The path-parameter specs that occur in the shipped tables. */
  const DateSpec := "date/date"
  const WeekSpec := "week/week"
  const GameSpec := "games/game"

  /** Every entry has at most one path parameter, and it is one of the three
      specs the shipped tables use. */
  predicate StandardSpecs(reg: Registry)
  {
    forall i :: 0 <= i < |reg| ==>
      var pp := reg[i].1.pathparms;
      |pp| <= 1 && (|pp| == 1 ==> pp[0] in {DateSpec, WeekSpec, GameSpec})
  }

  /** The three shipped specs pass the pattern check, and none of them takes
      its value from the caller's `force` parameter. */
  lemma StandardSpecsParse()
    ensures MatchPathSpec(DateSpec) == Some(("date", "date"))
    ensures MatchPathSpec(WeekSpec) == Some(("week", "week"))
    ensures MatchPathSpec(GameSpec) == Some(("games", "game"))
  {
    assert IsWord("date") && IsWord("week") && IsWord("games") && IsWord("game");
    assert "date" + "/" + "date" == DateSpec;
    assert "week" + "/" + "week" == WeekSpec;
    assert "games" + "/" + "game" == GameSpec;
    MatchPlainSpec("date", "date");
    MatchPlainSpec("week", "week");
    MatchPlainSpec("games", "game");
  }

  /** The path parameter a feed's name announces: `daily_` feeds take a date,
      `weekly_` feeds a week and `game_` feeds a game. */
  predicate AnnouncedByPrefix(name: string, pathparms: seq<string>)
  {
    && (StartsWith(name, "daily_") ==> pathparms == [DateSpec])
    && (StartsWith(name, "weekly_") ==> pathparms == [WeekSpec])
    && (StartsWith(name, "game_") ==> pathparms == [GameSpec])
  }

  /** Only a `daily_`, `weekly_` or `game_` feed has path parameters. */
  predicate PathParmsOnlyIfAnnounced(name: string, pathparms: seq<string>)
  {
    pathparms != [] ==>
      StartsWith(name, "daily_") || StartsWith(name, "weekly_") || StartsWith(name, "game_")
  }

  /** Entries `lo` up to `hi` carry the path parameters their prefixes announce. */
  predicate PrefixesAnnounce(reg: Registry, lo: int, hi: int)
    requires 0 <= lo <= hi <= |reg|
  {
    forall i :: lo <= i < hi ==> AnnouncedByPrefix(reg[i].0, reg[i].1.pathparms)
  }

  /** In entries `lo` up to `hi`, only announced feeds have path parameters. */
  predicate OnlyAnnouncedHavePathParms(reg: Registry, lo: int, hi: int)
    requires 0 <= lo <= hi <= |reg|
  {
    forall i :: lo <= i < hi ==> PathParmsOnlyIfAnnounced(reg[i].0, reg[i].1.pathparms)
  }
}
