/** The feed table of API version 2.1 (`API_v2_1`). Its constructor assigns
    `validFeeds` whole after the parent constructor ran, so this literal is
    the entire table: nothing of version 2.0's is merged in. */
module FeedsV2_1 {
  import opened Wrappers
  import opened PhpStrings
  import opened Feeds
  import FeedsV2_0


  const Table: Registry := [
    // core
    ("seasonal_games",                     FeedSettings(true,  [],         "games")),
    ("daily_games",                        FeedSettings(true,  [DateSpec], "games")),
    ("weekly_games",                       FeedSettings(true,  [WeekSpec], "games")),
    ("current_season",                     FeedSettings(false, [],         "current_season")),
    ("latest_updates",                     FeedSettings(true,  [],         "latest_updates")),
    ("seasonal_venues",                    FeedSettings(true,  [],         "venues")),
    // stats
    ("daily_player_gamelogs",              FeedSettings(true,  [DateSpec], "player_gamelogs")),
    ("weekly_player_gamelogs",             FeedSettings(true,  [WeekSpec], "player_gamelogs")),
    ("seasonal_player_gamelogs",           FeedSettings(true,  [],         "player_gamelogs")),
    ("daily_team_gamelogs",                FeedSettings(true,  [DateSpec], "team_gamelogs")),
    ("weekly_team_gamelogs",               FeedSettings(true,  [WeekSpec], "team_gamelogs")),
    ("seasonal_team_gamelogs",             FeedSettings(true,  [],         "team_gamelogs")),
    ("seasonal_team_stats",                FeedSettings(true,  [],         "team_stats_totals")),
    ("seasonal_player_stats",              FeedSettings(true,  [],         "player_stats_totals")),
    ("seasonal_standings",                 FeedSettings(true,  [],         "standings")),
    // detailed
    ("game_boxscore",                      FeedSettings(true,  [GameSpec], "boxscore")),
    ("game_playbyplay",                    FeedSettings(true,  [GameSpec], "playbyplay")),
    ("game_lineup",                        FeedSettings(true,  [GameSpec], "lineup")),
    ("player_injuries",                    FeedSettings(false, [],         "injuries")),
    ("players",                            FeedSettings(false, [],         "players")),
    ("injury_history",                     FeedSettings(false, [],         "injury_history")),
    // odds
    ("daily_odds_gamelines",               FeedSettings(true,  [DateSpec], "odds_gamelines")),
    ("weekly_odds_gamelines",              FeedSettings(true,  [WeekSpec], "odds_gamelines")),
    ("seasonal_odds_gamelines",            FeedSettings(true,  [],         "odds_gamelines")),
    ("daily_odds_futures",                 FeedSettings(true,  [DateSpec], "odds_futures")),
    // projections
    ("daily_player_gamelogs_projections",  FeedSettings(true,  [DateSpec], "player_gamelogs_projections")),
    ("weekly_player_gamelogs_projections", FeedSettings(true,  [WeekSpec], "player_gamelogs_projections")),
    ("daily_dfs_projections",              FeedSettings(true,  [DateSpec], "dfs_projections")),
    ("weekly_dfs_projections",             FeedSettings(true,  [WeekSpec], "dfs_projections")),
    ("seasonal_player_stats_projections",  FeedSettings(true,  [WeekSpec], "player_stats_totals_projections")),
    // dfs
    ("daily_dfs",                          FeedSettings(true,  [DateSpec], "dfs")),
    ("weekly_dfs",                         FeedSettings(true,  [WeekSpec], "dfs")),
    ("seasonal_dfs",                       FeedSettings(true,  [],         "dfs"))
  ]

  lemma DistinctRows0()
    ensures forall i, j :: 0 <= i < 8 && i < j < |Table| ==> Table[i].0 != Table[j].0
  {
  }

  lemma DistinctRows8()
    ensures forall i, j :: 8 <= i < 16 && i < j < |Table| ==> Table[i].0 != Table[j].0
  {
  }

  lemma DistinctRows16()
    ensures forall i, j :: 16 <= i < 24 && i < j < |Table| ==> Table[i].0 != Table[j].0
  {
  }

  lemma DistinctRows24()
    ensures forall i, j :: 24 <= i < |Table| && i < j < |Table| ==> Table[i].0 != Table[j].0
  {
  }

  /** The table has 33 feeds and no name is written twice. */
  lemma Distinct()
    ensures |Table| == 33 && DistinctNames(Table)
  {
    DistinctRows0();
    DistinctRows8();
    DistinctRows16();
    DistinctRows24();
  }

  /** Only `current_season`, `player_injuries`, `players` and
      `injury_history` do without a season. */
  lemma SeasonOptional()
    ensures forall i :: 0 <= i < |Table| ==>
      (!Table[i].1.season <==> Table[i].0 in {"current_season", "player_injuries", "players", "injury_history"})
  {
  }

  /** No feed has more than one path parameter, and the one it has is
      `date/date`, `week/week` or `games/game`. */
  lemma OnlyStandardSpecs()
    ensures StandardSpecs(Table)
  {
  }

  lemma PrefixRows0()
    ensures PrefixesAnnounce(Table, 0, 12)
  {
    FirstCharMismatch();
  }

  lemma PrefixRows12()
    ensures PrefixesAnnounce(Table, 12, 24)
  {
    FirstCharMismatch();
  }

  lemma PrefixRows24()
    ensures PrefixesAnnounce(Table, 24, |Table|)
  {
    FirstCharMismatch();
  }

  lemma SeasonalRows()
    ensures forall i :: 0 <= i < |Table| && StartsWith(Table[i].0, "seasonal_") ==>
      Table[i].1.pathparms == if i == 29 then [WeekSpec] else []
  {
    FirstCharMismatch();
  }

  /** Every `daily_` feed takes `date/date`, every `weekly_` feed `week/week`
      and every `game_` feed `games/game`; every `seasonal_` feed takes none,
      except `seasonal_player_stats_projections`, which takes a week. */
  lemma PathParmsFollowNames()
    ensures PrefixesAnnounce(Table, 0, |Table|)
    ensures forall i :: 0 <= i < |Table| && StartsWith(Table[i].0, "seasonal_") ==>
      Table[i].1.pathparms == if Table[i].0 == "seasonal_player_stats_projections" then [WeekSpec] else []
  {
    PrefixRows0();
    PrefixRows12();
    PrefixRows24();
    SeasonalRows();
    Distinct();
    assert Table[29].0 == "seasonal_player_stats_projections";
  }

  /** Where each version 2.0 entry sits in this table. */
  const V2_0Positions: seq<int> :=
    [0, 1, 2, 32, 30, 31, 8, 6, 7, 11, 9, 10, 15, 16, 17, 3, 18, 4, 12, 13, 5, 19, 14]

  /** Version 2.1 keeps every version 2.0 feed with identical settings. */
  lemma ExtendsV2_0()
    ensures forall i :: 0 <= i < |FeedsV2_0.Table| ==>
      Lookup(Table, FeedsV2_0.Table[i].0) == Some(FeedsV2_0.Table[i].1)
  {
    Distinct();
    PositionsHold(0, 12);
    PositionsHold(12, |FeedsV2_0.Table|);
  }

  lemma PositionsHold(lo: int, hi: int)
    requires 0 <= lo <= hi <= |FeedsV2_0.Table| && hi - lo <= 12
    ensures forall i :: lo <= i < hi ==>
      0 <= V2_0Positions[i] < |Table| && Table[V2_0Positions[i]] == FeedsV2_0.Table[i]
  {
  }

  /** `feed` is registered and reaches `endpoint`. */
  predicate Reaches(feed: string, endpoint: string)
  {
    Lookup(Table, feed).Some? && Lookup(Table, feed).value.endpoint == endpoint
  }

  /** Row `i` names `feed` and reaches `endpoint`. */
  lemma RowReaches(i: int, feed: string, endpoint: string)
    requires 0 <= i < |Table| && Table[i].0 == feed && Table[i].1.endpoint == endpoint
    ensures Reaches(feed, endpoint)
  {
    Distinct();
  }

  /** The daily, weekly and seasonal variants of a feed share its endpoint. */
  lemma VariantsShareEndpoints(feed: string)
    ensures feed == "seasonal_games" || feed == "daily_games" || feed == "weekly_games"
            ==> Reaches(feed, "games")
    ensures feed == "daily_player_gamelogs" || feed == "weekly_player_gamelogs" || feed == "seasonal_player_gamelogs"
            ==> Reaches(feed, "player_gamelogs")
    ensures feed == "daily_team_gamelogs" || feed == "weekly_team_gamelogs" || feed == "seasonal_team_gamelogs"
            ==> Reaches(feed, "team_gamelogs")
    ensures feed == "daily_odds_gamelines" || feed == "weekly_odds_gamelines" || feed == "seasonal_odds_gamelines"
            ==> Reaches(feed, "odds_gamelines")
    ensures feed == "daily_dfs" || feed == "weekly_dfs" || feed == "seasonal_dfs"
            ==> Reaches(feed, "dfs")
  {
    GamesVariants(feed);
    PlayerGamelogsVariants(feed);
    TeamGamelogsVariants(feed);
    OddsGamelinesVariants(feed);
    DfsVariants(feed);
  }

  lemma GamesVariants(feed: string)
    ensures feed == "seasonal_games" || feed == "daily_games" || feed == "weekly_games"
            ==> Reaches(feed, "games")
  {
    if feed == "seasonal_games" {
      RowReaches(0, feed, "games");
    } else if feed == "daily_games" {
      RowReaches(1, feed, "games");
    } else if feed == "weekly_games" {
      RowReaches(2, feed, "games");
    }
  }

  lemma PlayerGamelogsVariants(feed: string)
    ensures feed == "daily_player_gamelogs" || feed == "weekly_player_gamelogs" || feed == "seasonal_player_gamelogs"
            ==> Reaches(feed, "player_gamelogs")
  {
    if feed == "daily_player_gamelogs" {
      RowReaches(6, feed, "player_gamelogs");
    } else if feed == "weekly_player_gamelogs" {
      RowReaches(7, feed, "player_gamelogs");
    } else if feed == "seasonal_player_gamelogs" {
      RowReaches(8, feed, "player_gamelogs");
    }
  }

  lemma TeamGamelogsVariants(feed: string)
    ensures feed == "daily_team_gamelogs" || feed == "weekly_team_gamelogs" || feed == "seasonal_team_gamelogs"
            ==> Reaches(feed, "team_gamelogs")
  {
    if feed == "daily_team_gamelogs" {
      RowReaches(9, feed, "team_gamelogs");
    } else if feed == "weekly_team_gamelogs" {
      RowReaches(10, feed, "team_gamelogs");
    } else if feed == "seasonal_team_gamelogs" {
      RowReaches(11, feed, "team_gamelogs");
    }
  }

  lemma OddsGamelinesVariants(feed: string)
    ensures feed == "daily_odds_gamelines" || feed == "weekly_odds_gamelines" || feed == "seasonal_odds_gamelines"
            ==> Reaches(feed, "odds_gamelines")
  {
    if feed == "daily_odds_gamelines" {
      RowReaches(21, feed, "odds_gamelines");
    } else if feed == "weekly_odds_gamelines" {
      RowReaches(22, feed, "odds_gamelines");
    } else if feed == "seasonal_odds_gamelines" {
      RowReaches(23, feed, "odds_gamelines");
    }
  }

  lemma DfsVariants(feed: string)
    ensures feed == "daily_dfs" || feed == "weekly_dfs" || feed == "seasonal_dfs"
            ==> Reaches(feed, "dfs")
  {
    if feed == "daily_dfs" {
      RowReaches(30, feed, "dfs");
    } else if feed == "weekly_dfs" {
      RowReaches(31, feed, "dfs");
    } else if feed == "seasonal_dfs" {
      RowReaches(32, feed, "dfs");
    }
  }
}
