/** The feed table of API version 2.0 (`API_v2_0`). Its constructor assigns
    `validFeeds` whole after the parent constructor ran, so the version 1.x
    feeds are gone: this literal is the entire table. */
module FeedsV2_0 {
  import opened Wrappers
  import opened PhpStrings
  import opened Feeds

  const Table: Registry := [
    ("seasonal_games",           FeedSettings(true,  [],         "games")),
    ("daily_games",              FeedSettings(true,  [DateSpec], "games")),
    ("weekly_games",             FeedSettings(true,  [WeekSpec], "games")),
    ("seasonal_dfs",             FeedSettings(true,  [],         "dfs")),
    ("daily_dfs",                FeedSettings(true,  [DateSpec], "dfs")),
    ("weekly_dfs",               FeedSettings(true,  [WeekSpec], "dfs")),
    ("seasonal_player_gamelogs", FeedSettings(true,  [],         "player_gamelogs")),
    ("daily_player_gamelogs",    FeedSettings(true,  [DateSpec], "player_gamelogs")),
    ("weekly_player_gamelogs",   FeedSettings(true,  [WeekSpec], "player_gamelogs")),
    ("seasonal_team_gamelogs",   FeedSettings(true,  [],         "team_gamelogs")),
    ("daily_team_gamelogs",      FeedSettings(true,  [DateSpec], "team_gamelogs")),
    ("weekly_team_gamelogs",     FeedSettings(true,  [WeekSpec], "team_gamelogs")),
    ("game_boxscore",            FeedSettings(true,  [GameSpec], "boxscore")),
    ("game_playbyplay",          FeedSettings(true,  [GameSpec], "playbyplay")),
    ("game_lineup",              FeedSettings(true,  [GameSpec], "lineup")),
    ("current_season",           FeedSettings(false, [],         "current_season")),
    ("player_injuries",          FeedSettings(false, [],         "injuries")),
    ("latest_updates",           FeedSettings(true,  [],         "latest_updates")),
    ("seasonal_team_stats",      FeedSettings(true,  [],         "team_stats_totals")),
    ("seasonal_player_stats",    FeedSettings(true,  [],         "player_stats_totals")),
    ("seasonal_venues",          FeedSettings(true,  [],         "venues")),
    ("players",                  FeedSettings(false, [],         "players")),
    ("seasonal_standings",       FeedSettings(true,  [],         "standings"))
  ]

  lemma DistinctRows0()
    ensures forall i, j :: 0 <= i < 12 && i < j < |Table| ==> Table[i].0 != Table[j].0
  {
  }

  lemma DistinctRows12()
    ensures forall i, j :: 12 <= i < |Table| && i < j < |Table| ==> Table[i].0 != Table[j].0
  {
  }

  /** The table has 23 feeds and no name is written twice. */
  lemma Distinct()
    ensures |Table| == 23 && DistinctNames(Table)
  {
    DistinctRows0();
    DistinctRows12();
  }

  /** Only `current_season`, `player_injuries` and `players` do without a
      season. */
  lemma SeasonOptional()
    ensures forall i :: 0 <= i < |Table| ==>
      (!Table[i].1.season <==> Table[i].0 in {"current_season", "player_injuries", "players"})
  {
  }

  /** Every path parameter is `date/date`, `week/week` or `games/game`, one at most per feed. */
  lemma OnlyStandardSpecs()
    ensures StandardSpecs(Table)
  {
  }

  lemma UnannouncedRows0()
    ensures OnlyAnnouncedHavePathParms(Table, 0, 6)
  {
    FirstCharMismatch();
  }

  lemma UnannouncedRows6()
    ensures OnlyAnnouncedHavePathParms(Table, 6, 12)
  {
    FirstCharMismatch();
  }

  lemma UnannouncedRows12()
    ensures OnlyAnnouncedHavePathParms(Table, 12, 18)
  {
    FirstCharMismatch();
  }

  lemma UnannouncedRows18()
    ensures OnlyAnnouncedHavePathParms(Table, 18, |Table|)
  {
    FirstCharMismatch();
  }

  lemma PrefixRows0()
    ensures PrefixesAnnounce(Table, 0, 12)
  {
    FirstCharMismatch();
  }

  lemma PrefixRows12()
    ensures PrefixesAnnounce(Table, 12, |Table|)
  {
    FirstCharMismatch();
  }

  /** Every `daily_`, `weekly_` and `game_` feed takes exactly the one path
      parameter its name announces, and every other feed takes none. */
  lemma PathParmsFollowNames()
    ensures PrefixesAnnounce(Table, 0, |Table|)
    ensures OnlyAnnouncedHavePathParms(Table, 0, |Table|)
  {
    PrefixRows0();
    PrefixRows12();
    UnannouncedRows0();
    UnannouncedRows6();
    UnannouncedRows12();
    UnannouncedRows18();
  }

  /** Version 1.x feed names such as `scoreboard` are unknown here. */
  lemma ScoreboardUnknown()
    ensures !VerifyFeedName(Table, "scoreboard")
  {
  }

  /** Some endpoints differ from the feed names that reach them. */
  lemma RenamedEndpoints()
    ensures Lookup(Table, "seasonal_team_stats") == Some(FeedSettings(true, [], "team_stats_totals"))
    ensures Lookup(Table, "player_injuries") == Some(FeedSettings(false, [], "injuries"))
  {
    Distinct();
    assert Table[18].0 == "seasonal_team_stats";
    assert Table[16].0 == "player_injuries";
  }
}
