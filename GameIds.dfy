/** The post-game CSV of three chosen Timberwolves (get_nba_game_ids.py): the most recent
    Minnesota game id from the game finder, the Minnesota side of its box score (found by
    city), one record per player holding the feed's statistics under renamed columns, and
    the chosen stats flattened under a 27-name header. */
module GameIds {
  import opened Wrappers
  import opened Text
  import opened Frames
  import opened BoxScore

  /** One game-finder row: one team in one game, newest game first. */
  datatype FinderRow = FinderRow(gameId: string, teamAbbreviation: string)

  /** `game_ids[0]` after filtering to MIN: the id of the first Minnesota row, or
      IndexError when the season has none. */
  function LatestMinGameId(games: seq<FinderRow>): (r: Result<string>)
    ensures r.Err? <==> forall i :: 0 <= i < |games| ==> games[i].teamAbbreviation != "MIN"
    ensures r.Err? ==> r.error == IndexError
    ensures r.Ok? ==> exists i :: (0 <= i < |games| && games[i].teamAbbreviation == "MIN" &&
      games[i].gameId == r.value && forall k :: 0 <= k < i ==> games[k].teamAbbreviation != "MIN")
  {
    if |games| == 0 then Err(IndexError)
    else if games[0].teamAbbreviation == "MIN" then Ok(games[0].gameId)
    else
      var r := LatestMinGameId(games[1..]);
      assert forall i :: 0 < i < |games| ==> games[i] == games[1..][i - 1];
      if r.Ok? then
        var i :| (0 <= i < |games[1..]| && games[1..][i].teamAbbreviation == "MIN" &&
          games[1..][i].gameId == r.value && forall k :: 0 <= k < i ==> games[1..][k].teamAbbreviation != "MIN");
        assert games[i + 1] == games[1..][i];
        r
      else r
  }

  /** The Minnesota side, found by city: home first, then away; None when neither is. */
  function MinnesotaSide(home: Team, away: Team): (r: Option<seq<Player>>)
    ensures home.teamCity == "Minnesota" ==> r == Some(home.players)
    ensures home.teamCity != "Minnesota" && away.teamCity == "Minnesota" ==> r == Some(away.players)
    ensures r.None? <==> home.teamCity != "Minnesota" && away.teamCity != "Minnesota"
  {
    if home.teamCity == "Minnesota" then Some(home.players)
    else if away.teamCity == "Minnesota" then Some(away.players)
    else None
  }

  /** `create_team_stats_df` for one player: Player and Position, updated with the
      statistics dict; with the six renames (points, reboundsTotal, assists, steals,
      turnovers, blocks to PTS, REB, AST, STL, TOV, BLK) and the FGs and 3pts shooting
      lines of the column work that follows. */
  function PlayerRow(p: Player): (r: Record)
    ensures "Player" in r && r["Player"] == TextCell(FullName(p))
  {
    var s := p.statistics;
    map["Position" := TextCell(p.position),
        "PTS" := IntCell(s.points), "REB" := IntCell(s.reboundsTotal),
        "AST" := IntCell(s.assists), "STL" := IntCell(s.steals),
        "TOV" := IntCell(s.turnovers), "BLK" := IntCell(s.blocks),
        "fieldGoalsMade" := IntCell(s.fieldGoalsMade), "fieldGoalsAttempted" := IntCell(s.fieldGoalsAttempted),
        "threePointersMade" := IntCell(s.threePointersMade),
        "threePointersAttempted" := IntCell(s.threePointersAttempted),
        "plusMinusPoints" := IntCell(s.plusMinusPoints),
        "FGs" := TextCell(MadeAttempted(s.fieldGoalsMade, s.fieldGoalsAttempted)),
        "3pts" := TextCell(MadeAttempted(s.threePointersMade, s.threePointersAttempted)),
        "Player" := TextCell(FullName(p))]
  }

  /** The three counts the chosen stats read are the feed's own numbers under their new names. */
  lemma PlayerRowCounts(p: Player)
    ensures PlayerRow(p)["BLK"] == IntCell(p.statistics.blocks)
    ensures PlayerRow(p)["STL"] == IntCell(p.statistics.steals)
    ensures PlayerRow(p)["REB"] == IntCell(p.statistics.reboundsTotal)
  {
  }

  /** The frame: one row per player, in roster order. */
  function Rows(players: seq<Player>): (rows: seq<Record>)
    ensures |rows| == |players|
    ensures forall i :: 0 <= i < |players| ==> rows[i] == PlayerRow(players[i])
  {
    seq(|players|, i requires 0 <= i < |players| => PlayerRow(players[i]))
  }

  /** `create_team_stats_df`: the loop appending one row per player. */
  method CreateTeamStats(players: seq<Player>) returns (rows: seq<Record>)
    ensures rows == Rows(players)
  {
    rows := [];
    for i := 0 to |players|
      invariant rows == Rows(players[..i])
    {
      rows := rows + [PlayerRow(players[i])];
    }
    assert players[..|players|] == players;
  }

  /** The three chosen players and the four stats shown for each. */
  const Selected: seq<Selection> := [
    Selection("Mike Conley", ["PTS", "AST", "STL", "plusMinusPoints"]),
    Selection("Rudy Gobert", ["PTS", "REB", "BLK", "plusMinusPoints"]),
    Selection("Naz Reid", ["PTS", "3pts", "REB", "plusMinusPoints"])]

  /** Every chosen stat is a column of every row. */
  lemma RowsCarrySelected(players: seq<Player>)
    ensures forall i, j :: 0 <= i < |Rows(players)| && 0 <= j < |Selected| ==>
      forall st :: st in Selected[j].stats ==> st in Rows(players)[i]
  {
  }

  /** A row matches a name in the Player column exactly when its player has that full name. */
  lemma RowsMatchNames(players: seq<Player>, name: string)
    ensures forall i :: 0 <= i < |Rows(players)| ==>
      (Matches(Rows(players)[i], "Player", name) <==> FullName(players[i]) == name)
  {
    var rows := Rows(players);
    forall i | 0 <= i < |rows|
      ensures Matches(rows[i], "Player", name) <==> FullName(players[i]) == name
    {
      assert rows[i] == PlayerRow(players[i]);
    }
  }

  /** The extraction fails (IndexError) exactly when a chosen player is not on the roster. */
  lemma ExtractionSucceeds(players: seq<Player>)
    ensures FormatAll(Rows(players), "Player", Selected).Ok? <==>
      forall j :: 0 <= j < |Selected| ==> exists i :: 0 <= i < |players| && FullName(players[i]) == Selected[j].name
  {
    RowsCarrySelected(players);
    ExtractionSucceedsFor(players, Selected);
  }

  /** `ExtractionSucceeds` for any selection whose stats every row carries. */
  lemma ExtractionSucceedsFor(players: seq<Player>, sels: seq<Selection>)
    requires forall i, j :: 0 <= i < |Rows(players)| && 0 <= j < |sels| ==>
      forall st :: st in sels[j].stats ==> st in Rows(players)[i]
    ensures FormatAll(Rows(players), "Player", sels).Ok? <==>
      forall j :: 0 <= j < |sels| ==> exists i :: 0 <= i < |players| && FullName(players[i]) == sels[j].name
  {
    forall j | 0 <= j < |sels| {
      RowsMatchNames(players, sels[j].name);
    }
    NamedRowsSucceed(Rows(players), players, sels);
  }

  /** The header and the data row line up: 27 names, and 27 fields whenever the
      extraction succeeds. */
  lemma GameIdsLineUp(players: seq<Player>)
    ensures |HeaderNames(3, 4)| == 27
    ensures var r := FormatAll(Rows(players), "Player", Selected);
      r.Ok? ==> |r.value| == 27
  {
    assert forall j :: 0 <= j < |Selected| ==> |Selected[j].stats| == 4;
    FieldCountUniform(Selected, 4);
  }

  /** The script from the box score on. When Minnesota is on neither side (or its roster
      is empty) the frame has no columns and the shooting-line column raises KeyError;
      otherwise a chosen player missing from the roster gives the extraction's IndexError. */
  method Run(home: Team, away: Team, floatText: real -> string) returns (csv: Result<string>)
    ensures var side := MinnesotaSide(home, away);
      side.None? || |side.value| == 0 ==> csv == Err(KeyError)
    ensures var side := MinnesotaSide(home, away);
      side.Some? && |side.value| > 0 ==>
        var items := FormatAll(Rows(side.value), "Player", Selected);
        (csv.Ok? <==> items.Ok?) &&
        (csv.Err? ==> csv.error == items.error) &&
        (csv.Ok? ==> csv.value == CsvFile(HeaderNames(3, 4), items.value, floatText))
  {
    var players: seq<Player> := [];
    if home.teamCity == "Minnesota" {
      players := home.players;
    } else if away.teamCity == "Minnesota" {
      players := away.players;
    }
    if |players| == 0 {
      return Err(KeyError);
    }
    var rows := CreateTeamStats(players);
    var items := ExtractFormatted(rows, "Player", Selected);
    if items.Err? {
      return Err(items.error);
    }
    var header := BuildHeader(3, 4);
    csv := Ok(CsvFile(header, items.value, floatText));
  }
}
