/** The in-game box score copied into the local player_stats table
    (get_player_box_in_game2.py): the home roster's ten-field records, the list of their
    names, and the table replaced by one stored row per record. */
module BoxInGame2 {
  import opened Wrappers
  import opened Frames
  import opened BoxScore

  /** `DELETE FROM player_stats`, then one INSERT of `tuple(row)` per record in frame
      order, each value placed by position: whatever the table held before, it ends up
      holding exactly one `StoredAsWritten` row per record, in order. */
  method ReplaceTable(before: seq<map<string, Cell>>, records: seq<Record>) returns (after: seq<map<string, Cell>>)
    requires forall i :: 0 <= i < |records| ==> HasLiveColumns(records[i])
    ensures |after| == |records|
    ensures forall i :: 0 <= i < |records| ==> after[i] == StoredAsWritten(records[i])
  {
    after := [];
    for i := 0 to |records|
      invariant |after| == i
      invariant forall j :: 0 <= j < i ==> after[j] == StoredAsWritten(records[j])
    {
      after := after + [StoredAsWritten(records[i])];
    }
  }

  /** What the script leaves behind: the selected names and the table. */
  datatype Outcome = Outcome(playersSelected: seq<Cell>, table: seq<map<string, Cell>>)

  /** The script on the box score. The roster is always the home side's, whichever side
      Minnesota is on; an empty roster gives a frame without columns, on which
      `df['Player']` raises KeyError. Otherwise the selected names are the roster's full
      names in order, and each stored row is the positional INSERT of its player's
      record: BLK holds the steals, STL the turnovers and TOV the blocks. */
  method Run(home: Team, away: Team, before: seq<map<string, Cell>>) returns (r: Result<Outcome>)
    ensures |home.players| == 0 <==> r.Err?
    ensures r.Err? ==> r.error == KeyError
    ensures r.Ok? ==>
      |r.value.playersSelected| == |home.players| &&
      (forall i :: 0 <= i < |home.players| ==> r.value.playersSelected[i] == TextCell(FullName(home.players[i]))) &&
      |r.value.table| == |home.players| &&
      (forall i :: 0 <= i < |home.players| ==> r.value.table[i] == StoredAsWritten(LiveRecord(home.players[i], "3pt")))
    ensures r.Ok? ==> forall i :: 0 <= i < |home.players| ==>
      var s := home.players[i].statistics;
      r.value.table[i]["BLK"] == IntCell(s.steals) && r.value.table[i]["STL"] == IntCell(s.turnovers) &&
      r.value.table[i]["TOV"] == IntCell(s.blocks)
  {
    var players := home.players;
    var records := LiveRecords(players, "3pt");
    if |records| == 0 {
      return Err(KeyError);
    }
    var selected := PlayerNames(records);
    var table := ReplaceTable(before, records);
    forall i | 0 <= i < |players|
      ensures var s := players[i].statistics;
        table[i]["BLK"] == IntCell(s.steals) && table[i]["STL"] == IntCell(s.turnovers) && table[i]["TOV"] == IntCell(s.blocks)
    {
      InsertShiftsColumns(players[i]);
    }
    r := Ok(Outcome(selected, table));
  }
}
