/** The feed table of API version 1.0 (`API_v1_0`): nineteen feeds, none with
    path parameters, each reached at the endpoint of its own name. */
module FeedsV1_0 {
  import opened Wrappers
  import opened Feeds

  const Table: Registry := [
    ("cumulative_player_stats",   FeedSettings(true,  [], "cumulative_player_stats")),
    ("full_game_schedule",        FeedSettings(true,  [], "full_game_schedule")),
    ("daily_game_schedule",       FeedSettings(true,  [], "daily_game_schedule")),
    ("daily_player_stats",        FeedSettings(true,  [], "daily_player_stats")),
    ("game_boxscore",             FeedSettings(true,  [], "game_boxscore")),
    ("game_playbyplay",           FeedSettings(true,  [], "game_playbyplay")),
    ("scoreboard",                FeedSettings(true,  [], "scoreboard")),
    ("game_startinglineup",       FeedSettings(true,  [], "game_startinglineup")),
    ("player_gamelogs",           FeedSettings(true,  [], "player_gamelogs")),
    ("team_gamelogs",             FeedSettings(true,  [], "team_gamelogs")),
    ("active_players",            FeedSettings(true,  [], "active_players")),
    ("overall_team_standings",    FeedSettings(true,  [], "overall_team_standings")),
    ("conference_team_standings", FeedSettings(true,  [], "conference_team_standings")),
    ("division_team_standings",   FeedSettings(true,  [], "division_team_standings")),
    ("playoff_team_standings",    FeedSettings(true,  [], "playoff_team_standings")),
    ("player_injuries",           FeedSettings(true,  [], "player_injuries")),
    ("latest_updates",            FeedSettings(true,  [], "latest_updates")),
    ("daily_dfs",                 FeedSettings(true,  [], "daily_dfs")),
    ("current_season",            FeedSettings(false, [], "current_season"))
  ]

  lemma DistinctRows0()
    ensures forall i, j :: 0 <= i < 10 && i < j < |Table| ==> Table[i].0 != Table[j].0
  {
  }

  lemma DistinctRows10()
    ensures forall i, j :: 10 <= i < |Table| && i < j < |Table| ==> Table[i].0 != Table[j].0
  {
  }

  /** The table has 19 feeds and no name is written twice. */
  lemma Distinct()
    ensures |Table| == 19 && DistinctNames(Table)
  {
    DistinctRows0();
    DistinctRows10();
  }

  /** No feed has path parameters, every endpoint is the feed's own name, and
      only `current_season` does without a season. */
  lemma Shape()
    ensures forall i :: 0 <= i < |Table| ==>
      && Table[i].1.pathparms == []
      && Table[i].1.endpoint == Table[i].0
      && (!Table[i].1.season <==> Table[i].0 == "current_season")
  {
  }

  /** What a lookup in this table can return: settings with no path
      parameters and the feed's name as endpoint. */
  lemma LookupShape(feed: string)
    ensures Lookup(Table, feed).Some? ==>
      var s := Lookup(Table, feed).value;
      s.pathparms == [] && s.endpoint == feed && (s.season <==> feed != "current_season")
  {
    Shape();
  }
}
