/** nba_players_3pt.py: the league-wide per-game table reduced to five columns and
    ordered by three-point percentage. The endpoint's tables are a parameter; `None`
    stands for the early returns that write no output. */
module ThreePoint {
  import opened Wrappers
  import opened Lists
  import opened Frames

  /** The five columns of the output, in output order. */
  const Selected: seq<string> := ["PLAYER_ID", "PLAYER_NAME", "TEAM_ABBREVIATION", "FG3_PCT", "FG3A"]
  const Pct: string := "FG3_PCT"

  lemma SelectedDistinct()
    ensures Distinct(Selected) && Pct in Selected
  {
    assert Selected[0][7] != Selected[1][7] && Selected[0][0] != Selected[2][0];
    assert Selected[0][0] != Selected[3][0] && Selected[0][0] != Selected[4][0];
    assert Selected[1][0] != Selected[2][0] && Selected[1][0] != Selected[3][0];
    assert Selected[1][0] != Selected[4][0] && Selected[2][0] != Selected[3][0];
    assert Selected[2][0] != Selected[4][0] && |Selected[3]| != |Selected[4]|;
    assert Selected[3] == Pct;
  }

  /** main: nothing without a table or without all five columns; otherwise the first
      table's five columns, largest FG3_PCT first. */
  function ThreePointTable(frames: seq<Frame>): (r: Option<Frame>)
    ensures r.None? <==> |frames| == 0 || exists c :: c in Selected && c !in frames[0].columns
    ensures r.Some? ==> r.value.columns == Selected && |r.value.rows| == |frames[0].rows|
    ensures r.Some? ==> SortedDesc(Selected, r.value.rows, Pct)
  {
    if |frames| == 0 then None
    else
      match Select(frames[0], Selected)
      case Err(_) => None
      case Ok(g) => Some(SortDesc(g, Pct))
  }

  /** Every output row is the projection of an input row, and every input row's projection
      is in the output as often as in the input: the sort only reorders. */
  lemma ThreePointRows(frames: seq<Frame>)
    requires ThreePointTable(frames).Some?
    ensures var out := ThreePointTable(frames).value;
      WellFormed(out)
      && multiset(out.rows) == multiset(Select(frames[0], Selected).value.rows)
      && forall i, c :: 0 <= i < |frames[0].rows| && c in Selected ==>
        Get(Selected, Select(frames[0], Selected).value.rows[i], c) == Get(frames[0].columns, frames[0].rows[i], c)
  {
    SelectedDistinct();
    SortDescWellFormed(Select(frames[0], Selected).value, Pct);
  }
}
