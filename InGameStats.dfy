/** The in-game player stats of the Timberwolves (aaWolfWiseETL/in_game_stats/in_game_stats.py):
    the Minnesota side of the live box score, one ten-field record per player, and the
    opponent the script reports. */
module InGameStats {
  import opened Wrappers
  import opened Frames
  import opened BoxScore

  /** The Wolves side: home when its tricode is MIN, else away when its tricode is; a
      ValueError when neither is. */
  function WolvesTeam(home: Team, away: Team): (r: Result<Team>)
    ensures r.Err? <==> home.teamTricode != "MIN" && away.teamTricode != "MIN"
    ensures r.Err? ==> r.error == ValueError
    ensures r.Ok? ==> r.value.teamTricode == "MIN"
    ensures home.teamTricode == "MIN" ==> r == Ok(home)
    ensures home.teamTricode != "MIN" && away.teamTricode == "MIN" ==> r == Ok(away)
  {
    if home.teamTricode == "MIN" then Ok(home)
    else if away.teamTricode == "MIN" then Ok(away)
    else Err(ValueError)
  }

  /** The opponent printed after saving: the away tricode when the home side is MIN,
      the home tricode otherwise. */
  function Opponent(home: Team, away: Team): string {
    if home.teamTricode == "MIN" then away.teamTricode else home.teamTricode
  }

  /** The opponent is the tricode of the side that is not the Wolves side; in a game
      between MIN and another team it is never MIN. */
  lemma OpponentIsOtherSide(home: Team, away: Team)
    requires WolvesTeam(home, away).Ok?
    ensures WolvesTeam(home, away).value == home ==> Opponent(home, away) == away.teamTricode
    ensures home.teamTricode != "MIN" ==>
      WolvesTeam(home, away).value == away && Opponent(home, away) == home.teamTricode
    ensures (home.teamTricode == "MIN") != (away.teamTricode == "MIN") ==> Opponent(home, away) != "MIN"
  {
  }

  /** The main block up to the save: the Wolves side, then one ten-field record (with a
      `threePt` column) per roster player, in roster order; the side's ValueError when
      MIN plays on neither side. */
  method InGameRecords(home: Team, away: Team) returns (r: Result<seq<Record>>)
    ensures r.Err? <==> WolvesTeam(home, away).Err?
    ensures r.Err? ==> r.error == ValueError
    ensures r.Ok? ==> var players := WolvesTeam(home, away).value.players;
      |r.value| == |players| &&
      forall i :: 0 <= i < |players| ==> r.value[i] == LiveRecord(players[i], "threePt")
  {
    var wolves: Team;
    if home.teamTricode == "MIN" {
      wolves := home;
    } else if away.teamTricode == "MIN" {
      wolves := away;
    } else {
      return Err(ValueError);
    }
    var records := LiveRecords(wolves.players, "threePt");
    r := Ok(records);
  }
}
