/** The in-game CSV of five chosen Timberwolves (get_nba_game_stats_during_game.py): the
    side is chosen from the game's MATCHUP, every player of that side becomes a record
    with renamed stat columns, shooting lines and a full name, and the chosen players'
    chosen stats are flattened into one row under a 45-name header. */
module DuringGame {
  import opened Wrappers
  import opened Text
  import opened Frames
  import opened BoxScore

  /** The roster the script reads: the home side when MATCHUP contains "vs", else the away side. */
  function SidePlayers(matchup: string, home: Team, away: Team): (ps: seq<Player>)
    ensures Contains(matchup, "vs") ==> ps == home.players
    ensures !Contains(matchup, "vs") ==> ps == away.players
  {
    if Contains(matchup, "vs") then home.players else away.players
  }

  /** A home game's matchup ("MIN vs. DEN") selects the home roster, an away game's
      ("MIN @ DEN") the away roster. */
  lemma SideOfMatchup(home: Team, away: Team)
    ensures SidePlayers("MIN vs. DEN", home, away) == home.players
    ensures SidePlayers("MIN @ DEN", home, away) == away.players
  {
    assert OccursAt("MIN vs. DEN", "vs", 4);
    ContainsIff("MIN vs. DEN", "vs");
    AbsentFirstChar("MIN @ DEN", "vs");
  }

  /** A player's row after the column work: the dict of the player loop with Points,
      Rebounds, Assists, Steals, Turnovers and Blocks renamed to PTS, REB, AST, STL, TOV and
      BLK, the FGs and 3pt shooting lines appended, and Player = first + " " + last. */
  function PlayerRow(p: Player): (r: Record)
    ensures "Player" in r && r["Player"] == TextCell(FullName(p))
  {
    var s := p.statistics;
    map["First Name" := TextCell(p.firstName), "Last Name" := TextCell(p.familyName),
        "AST" := IntCell(s.assists), "PTS" := IntCell(s.points),
        "REB" := IntCell(s.reboundsTotal), "STL" := IntCell(s.steals),
        "TOV" := IntCell(s.turnovers), "BLK" := IntCell(s.blocks),
        "Field Goals Made" := IntCell(s.fieldGoalsMade), "Field Goals Attempted" := IntCell(s.fieldGoalsAttempted),
        "Three Pointers Made" := IntCell(s.threePointersMade),
        "Three Pointers Attempted" := IntCell(s.threePointersAttempted),
        "plusMinusPoints" := IntCell(s.plusMinusPoints),
        "FGs" := TextCell(MadeAttempted(s.fieldGoalsMade, s.fieldGoalsAttempted)),
        "3pt" := TextCell(MadeAttempted(s.threePointersMade, s.threePointersAttempted)),
        "Player" := TextCell(FullName(p))]
  }

  /** The frame: one row per roster player, in roster order. */
  function Rows(players: seq<Player>): (rows: seq<Record>)
    ensures |rows| == |players|
    ensures forall i :: 0 <= i < |players| ==> rows[i] == PlayerRow(players[i])
  {
    seq(|players|, i requires 0 <= i < |players| => PlayerRow(players[i]))
  }

  /** The player loop, appending one row per player. */
  method CollectRows(players: seq<Player>) returns (rows: seq<Record>)
    ensures rows == Rows(players)
  {
    rows := [];
    for i := 0 to |players|
      invariant rows == Rows(players[..i])
    {
      rows := rows + [PlayerRow(players[i])];
    }
    assert players[..|players|] == players;
  }

  /** The five chosen players and the four stats shown for each. */
  const Selected: seq<Selection> := [
    Selection("Anthony Edwards", ["PTS", "REB", "AST", "plusMinusPoints"]),
    Selection("Julius Randle", ["PTS", "AST", "STL", "plusMinusPoints"]),
    Selection("Rudy Gobert", ["PTS", "REB", "FGs", "plusMinusPoints"]),
    Selection("Mike Conley", ["PTS", "AST", "3pt", "plusMinusPoints"]),
    Selection("Jaden McDaniels", ["PTS", "REB", "FGs", "plusMinusPoints"])]

  /** Every chosen stat is a column of every row, so no lookup of a chosen stat fails. */
  lemma SelectedStatsPresent(p: Player)
    ensures forall j :: 0 <= j < |Selected| ==> forall st :: st in Selected[j].stats ==> st in PlayerRow(p)
  {
  }

  /** Every row of the frame carries every chosen stat. */
  lemma RowsCarrySelected(players: seq<Player>)
    ensures forall i, j :: 0 <= i < |Rows(players)| && 0 <= j < |Selected| ==>
      forall st :: st in Selected[j].stats ==> st in Rows(players)[i]
  {
    forall i | 0 <= i < |players| {
      SelectedStatsPresent(players[i]);
    }
  }

  /** A row matches a name in the Player column exactly when its player has that full name. */
  lemma RowsMatchNames(players: seq<Player>, name: string)
    ensures forall i :: 0 <= i < |Rows(players)| ==>
      (Matches(Rows(players)[i], "Player", name) <==> FullName(players[i]) == name)
  {
    var rows := Rows(players);
    forall i | 0 <= i < |rows|
      ensures Matches(rows[i], "Player", name) <==> FullName(players[i]) == name
    {
      assert rows[i] == PlayerRow(players[i]);
    }
  }

  /** The extraction fails (IndexError) exactly when a chosen player is not on the roster. */
  lemma ExtractionSucceeds(players: seq<Player>)
    ensures FormatAll(Rows(players), "Player", Selected).Ok? <==>
      forall j :: 0 <= j < |Selected| ==> exists i :: 0 <= i < |players| && FullName(players[i]) == Selected[j].name
  {
    RowsCarrySelected(players);
    ExtractionSucceedsFor(players, Selected);
  }

  /** `ExtractionSucceeds` for any selection whose stats every row carries. */
  lemma ExtractionSucceedsFor(players: seq<Player>, sels: seq<Selection>)
    requires forall i, j :: 0 <= i < |Rows(players)| && 0 <= j < |sels| ==>
      forall st :: st in sels[j].stats ==> st in Rows(players)[i]
    ensures FormatAll(Rows(players), "Player", sels).Ok? <==>
      forall j :: 0 <= j < |sels| ==> exists i :: 0 <= i < |players| && FullName(players[i]) == sels[j].name
  {
    forall j | 0 <= j < |sels| {
      RowsMatchNames(players, sels[j].name);
    }
    NamedRowsSucceed(Rows(players), players, sels);
  }

  /** The header and the data row line up: 45 names, and 45 fields whenever the
      extraction succeeds. */
  lemma DuringGameLineUp(players: seq<Player>)
    ensures |HeaderNames(5, 4)| == 45
    ensures var r := FormatAll(Rows(players), "Player", Selected);
      r.Ok? ==> |r.value| == 45
  {
    assert forall j :: 0 <= j < |Selected| ==> |Selected[j].stats| == 4;
    FieldCountUniform(Selected, 4);
  }

  /** The script from the box score on: the side, the rows, the flattened selections, the
      header, and the CSV text. An empty roster gives a frame without columns, on which the
      first column access raises KeyError; otherwise a chosen player missing from the roster
      gives the extraction's IndexError. */
  method Run(matchup: string, home: Team, away: Team, floatText: real -> string) returns (csv: Result<string>)
    ensures var players := SidePlayers(matchup, home, away);
      |players| == 0 ==> csv == Err(KeyError)
    ensures var players := SidePlayers(matchup, home, away);
      var items := FormatAll(Rows(players), "Player", Selected);
      |players| > 0 ==>
        (csv.Ok? <==> items.Ok?) &&
        (csv.Err? ==> csv.error == items.error) &&
        (csv.Ok? ==> csv.value == CsvFile(HeaderNames(5, 4), items.value, floatText))
  {
    var players := if Contains(matchup, "vs") then home.players else away.players;
    if |players| == 0 {
      return Err(KeyError);
    }
    var rows := CollectRows(players);
    var items := ExtractFormatted(rows, "Player", Selected);
    if items.Err? {
      return Err(items.error);
    }
    var header := BuildHeader(5, 4);
    csv := Ok(CsvFile(header, items.value, floatText));
  }
}
