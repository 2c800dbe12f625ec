/** `fetch_timberwolves_stats` of the season stat-card script: the league's per-player
    season line is renamed to the card's field names, left-joined with the roster for
    position and jersey number, given a nickname, a picture address and a running id,
    and laid out in the card's fixed column order. */
module SeasonCards {
  import opened Wrappers
  import opened Text
  import opened Frames
  import opened Lists

  /** Where the player pictures live; a picture is named after the player. */
  const BaseImageUrl: string := "https://kuthirbcjtofsdwsfhkj.supabase.co/storage/v1/object/public/player-images/"

  /** The stats columns and the card field each one becomes. */
  const RenameStats: map<string, string> := map[
    "PLAYER_ID" := "player_id", "PLAYER_NAME" := "player_name", "GP" := "games_played",
    "W" := "wins", "L" := "losses", "W_PCT" := "win_percentage", "MIN" := "minutes_per_game",
    "FGM" := "field_goals_made", "FGA" := "field_goals_attempted", "FG_PCT" := "field_goal_percentage",
    "FG3M" := "three_pointers_made", "FG3A" := "three_pointers_attempted",
    "FG3_PCT" := "three_point_percentage", "FTM" := "free_throws_made",
    "FTA" := "free_throws_attempted", "FT_PCT" := "free_throw_percentage",
    "OREB" := "offensive_rebounds", "DREB" := "defensive_rebounds", "REB" := "total_rebounds",
    "AST" := "assists", "TOV" := "turnovers", "STL" := "steals", "BLK" := "blocks",
    "BLKA" := "blocked_attempts", "PF" := "personal_fouls", "PFD" := "personal_fouls_drawn",
    "PTS" := "points", "PLUS_MINUS" := "plus_minus", "NBA_FANTASY_PTS" := "nba_fantasy_pts",
    "DD2" := "double_doubles", "TD3" := "triple_doubles"]

  /** The roster columns that are kept, and their card names. */
  const RenameRoster: map<string, string> := map[
    "PLAYER_ID" := "player_id", "POSITION" := "position", "NUM" := "jersey_number"]

  const RosterColumns: seq<string> := ["player_id", "position", "jersey_number"]

  /** The card's columns, in order. */
  const DesiredOrder: seq<string> := [
    "id", "player_id", "player_name", "nickname", "games_played", "wins", "losses",
    "win_percentage", "minutes_per_game", "field_goals_made", "field_goals_attempted",
    "field_goal_percentage", "three_pointers_made", "three_pointers_attempted",
    "three_point_percentage", "free_throws_made", "free_throws_attempted",
    "free_throw_percentage", "offensive_rebounds", "defensive_rebounds", "total_rebounds",
    "assists", "turnovers", "steals", "blocks", "blocked_attempts", "personal_fouls",
    "personal_fouls_drawn", "points", "plus_minus", "nba_fantasy_pts", "double_doubles",
    "triple_doubles", "image_url", "position", "jersey_number"]

  // ---------------------------------------------------------------------------
  // Renaming

  /** The name a column takes under a renaming map. */
  function Renamed(c: string, m: map<string, string>): string {
    if c in m then m[c] else c
  }

  /** `df.rename(columns=m)`: every column takes its new name at once; no cell moves. */
  function RenameAll(f: Frame, m: map<string, string>): (g: Frame)
    ensures g.rows == f.rows && |g.columns| == |f.columns|
    ensures forall k :: 0 <= k < |f.columns| ==> g.columns[k] == Renamed(f.columns[k], m)
    ensures Aligned(f) ==> Aligned(g)
  {
    Frame(seq(|f.columns|, k requires 0 <= k < |f.columns| => Renamed(f.columns[k], m)), f.rows)
  }

  /** After the renaming a column answers to its new name, and a name outside the map's
      keys and values stays where it was. */
  /** With distinct names before and after, a row answers under a column's new name
      what it answered under the old one. */
  lemma RenameAllGet(f: Frame, m: map<string, string>, k: nat, row: seq<Cell>)
    requires k < |f.columns| == |row|
    requires Distinct(f.columns) && Distinct(RenameAll(f, m).columns)
    ensures Get(RenameAll(f, m).columns, row, Renamed(f.columns[k], m)) == Get(f.columns, row, f.columns[k])
  {
    GetAt(f.columns, row, k);
    GetAt(RenameAll(f, m).columns, row, k);
  }

  lemma RenameAllColumns(f: Frame, m: map<string, string>, k: nat)
    requires k < |f.columns|
    ensures f.columns[k] in m ==> RenameAll(f, m).columns[k] == m[f.columns[k]]
    ensures f.columns[k] in m ==> m[f.columns[k]] in RenameAll(f, m).columns
    ensures f.columns[k] !in m && f.columns[k] !in m.Values ==>
      RenameAll(f, m).columns[k] == f.columns[k]
  {
    assert RenameAll(f, m).columns[k] == Renamed(f.columns[k], m);
  }

  // ---------------------------------------------------------------------------
  // The left merge with the roster on player_id

  /** A roster row reduced to the three kept columns. */
  datatype RosterEntry = RosterEntry(playerId: Cell, position: Cell, jerseyNumber: Cell)

  /** The roster entries whose player_id is `id`, in roster order. */
  function Matches(roster: seq<RosterEntry>, id: Cell): (ms: seq<RosterEntry>)
    ensures |ms| <= |roster|
  {
    if |roster| == 0 then []
    else
      var n := |roster| - 1;
      Matches(roster[..n], id) + (if roster[n].playerId == id then [roster[n]] else [])
  }

  /** Every roster entry with the right player_id is matched. */
  lemma {:induction false} MatchFound(roster: seq<RosterEntry>, id: Cell, k: nat)
    requires k < |roster| && roster[k].playerId == id
    ensures roster[k] in Matches(roster, id)
  {
    var n := |roster| - 1;
    if k < n {
      assert roster[..n][k] == roster[k];
      MatchFound(roster[..n], id, k);
    }
  }

  /** Only roster entries with the right player_id are matched. */
  lemma {:induction false} MatchSound(roster: seq<RosterEntry>, id: Cell, e: RosterEntry)
    requires e in Matches(roster, id)
    ensures e in roster && e.playerId == id
  {
    var n := |roster| - 1;
    if e in Matches(roster[..n], id) {
      MatchSound(roster[..n], id, e);
    }
  }

  /** No two roster entries share a player_id. */
  predicate UniqueIds(roster: seq<RosterEntry>) {
    forall a, b :: 0 <= a < b < |roster| ==> roster[a].playerId != roster[b].playerId
  }

  /** With unique roster ids a player matches at most one roster entry. */
  lemma {:induction false} MatchAtMostOne(roster: seq<RosterEntry>, id: Cell)
    requires UniqueIds(roster)
    ensures |Matches(roster, id)| <= 1
  {
    if |roster| > 0 {
      var n := |roster| - 1;
      var init := roster[..n];
      assert UniqueIds(init) by {
        forall a, b | 0 <= a < b < n
          ensures init[a].playerId != init[b].playerId
        {
          assert init[a] == roster[a] && init[b] == roster[b];
        }
      }
      MatchAtMostOne(init, id);
      if roster[n].playerId == id && |Matches(init, id)| > 0 {
        var e := Matches(init, id)[0];
        MatchSound(init, id, e);
        assert false;
      }
    }
  }

  /** The merged rows of one stats row: one per matching roster entry, or one padded with
      missing values when the player is not on the roster. */
  function MergeRow(row: seq<Cell>, id: Cell, roster: seq<RosterEntry>): (out: seq<seq<Cell>>)
    ensures |out| >= 1
  {
    var ms := Matches(roster, id);
    if |ms| == 0 then [row + [Blank, Blank]]
    else seq(|ms|, j requires 0 <= j < |ms| => row + [ms[j].position, ms[j].jerseyNumber])
  }

  /** A merged row is the stats row followed by either the position and number of a
      roster entry with the same player_id, or two missing values when none has it. */
  lemma MergeRowShape(row: seq<Cell>, id: Cell, roster: seq<RosterEntry>, o: seq<Cell>)
    requires o in MergeRow(row, id, roster)
    ensures |o| == |row| + 2 && o[..|row|] == row
    ensures (o[|row|..] == [Blank, Blank] && forall e :: e in roster ==> e.playerId != id) ||
      (exists e :: e in roster && e.playerId == id && o[|row|..] == [e.position, e.jerseyNumber])
  {
    var ms := Matches(roster, id);
    if |ms| == 0 {
      forall e | e in roster
        ensures e.playerId != id
      {
        var k :| 0 <= k < |roster| && roster[k] == e;
        if e.playerId == id {
          MatchFound(roster, id, k);
        }
      }
      assert o == row + [Blank, Blank];
    } else {
      var j :| 0 <= j < |ms| && o == row + [ms[j].position, ms[j].jerseyNumber];
      MatchSound(roster, id, ms[j]);
      assert o[|row|..] == [ms[j].position, ms[j].jerseyNumber];
    }
  }

  /** The pieces laid end to end. */
  function Joined<T>(pieces: seq<seq<T>>): seq<T> {
    if |pieces| == 0 then [] else Joined(pieces[..|pieces| - 1]) + pieces[|pieces| - 1]
  }

  /** Piece `i` sits, in order, right after the pieces before it. */
  lemma {:induction false} JoinedAt<T>(pieces: seq<seq<T>>, i: nat)
    requires i < |pieces|
    ensures |Joined(pieces[..i])| + |pieces[i]| <= |Joined(pieces)|
    ensures forall j :: 0 <= j < |pieces[i]| ==> Joined(pieces)[|Joined(pieces[..i])| + j] == pieces[i][j]
  {
    var n := |pieces| - 1;
    assert pieces[..n + 1] == pieces;
    if i < n {
      assert pieces[..n][..i] == pieces[..i] && pieces[..n][i] == pieces[i];
      JoinedAt(pieces[..n], i);
    }
  }

  /** Every element of the whole comes from one piece. */
  lemma {:induction false} JoinedSource<T>(pieces: seq<seq<T>>, j: nat)
    requires j < |Joined(pieces)|
    ensures exists i :: 0 <= i < |pieces| && Joined(pieces)[j] in pieces[i]
  {
    var n := |pieces| - 1;
    var init := Joined(pieces[..n]);
    if j < |init| {
      JoinedSource(pieces[..n], j);
      var i :| 0 <= i < n && init[j] in pieces[..n][i];
      assert pieces[..n][i] == pieces[i];
    } else {
      assert Joined(pieces)[j] == pieces[n][j - |init|];
    }
  }

  /** With every piece non-empty there are at least as many elements as pieces, and with
      every piece a single element the whole is those elements in order. */
  lemma {:induction false} JoinedLength<T>(pieces: seq<seq<T>>)
    requires forall i :: 0 <= i < |pieces| ==> |pieces[i]| >= 1
    ensures |Joined(pieces)| >= |pieces|
    ensures (forall i :: 0 <= i < |pieces| ==> |pieces[i]| == 1) ==>
      |Joined(pieces)| == |pieces| && forall i :: 0 <= i < |pieces| ==> Joined(pieces)[i] == pieces[i][0]
  {
    if |pieces| > 0 {
      var n := |pieces| - 1;
      assert forall i :: 0 <= i < n ==> pieces[..n][i] == pieces[i];
      JoinedLength(pieces[..n]);
    }
  }

  /** `pd.merge(..., how='left')` row by row: the merged rows of each stats row, in
      stats order; `ids` holds each stats row's player_id. */
  function MergePieces(rows: seq<seq<Cell>>, ids: seq<Cell>, roster: seq<RosterEntry>): (ps: seq<seq<seq<Cell>>>)
    requires |ids| == |rows|
    ensures |ps| == |rows|
  {
    seq(|rows|, i requires 0 <= i < |rows| => MergeRow(rows[i], ids[i], roster))
  }

  /** The reduced roster's rows as entries. */
  function Entries(roster: Frame): (es: seq<RosterEntry>)
    requires Aligned(roster) && roster.columns == RosterColumns
    ensures |es| == |roster.rows|
  {
    seq(|roster.rows|, i requires 0 <= i < |roster.rows| =>
      assert roster.rows[i] in roster.rows;
      RosterEntry(roster.rows[i][0], roster.rows[i][1], roster.rows[i][2]))
  }

  /** `pd.merge(df_stats, df_roster, on='player_id', how='left')` for the reduced roster:
      KeyError when the stats have no player_id column; otherwise the stats columns
      followed by position and jersey_number. */
  function LeftMerge(stats: Frame, roster: Frame): (r: Result<Frame>)
    requires Aligned(stats) && Aligned(roster) && roster.columns == RosterColumns
    ensures r.Ok? <==> "player_id" in stats.columns
    ensures r.Err? ==> r.error == KeyError
    ensures r.Ok? ==> Aligned(r.value) && r.value.columns == stats.columns + ["position", "jersey_number"]
    ensures r.Ok? ==> |r.value.rows| >= |stats.rows|
  {
    if "player_id" !in stats.columns then Err(KeyError)
    else
      var ids := ColumnCells(stats, "player_id");
      var pieces := MergePieces(stats.rows, ids, Entries(roster));
      var rows := Joined(pieces);
      MergedWidths(stats.rows, ids, Entries(roster), |stats.columns|);
      Ok(Frame(stats.columns + ["position", "jersey_number"], rows))
  }

  /** Every merged row is a stats row of width `width` plus two cells, and no stats row
      is lost. */
  lemma MergedWidths(rows: seq<seq<Cell>>, ids: seq<Cell>, es: seq<RosterEntry>, width: nat)
    requires |ids| == |rows| && forall r :: r in rows ==> |r| == width
    ensures var out := Joined(MergePieces(rows, ids, es));
      |out| >= |rows| && forall j :: 0 <= j < |out| ==> |out[j]| == width + 2
  {
    var pieces := MergePieces(rows, ids, es);
    var out := Joined(pieces);
    JoinedLength(pieces);
    forall j | 0 <= j < |out|
      ensures |out[j]| == width + 2
    {
      JoinedSource(pieces, j);
      var i :| 0 <= i < |rows| && out[j] in pieces[i];
      MergeRowShape(rows[i], ids[i], es, out[j]);
      assert rows[i] in rows;
    }
  }

  lemma LeftMergeRows(stats: Frame, roster: Frame)
    requires Aligned(stats) && Aligned(roster) && roster.columns == RosterColumns
    requires LeftMerge(stats, roster).Ok?
    ensures LeftMerge(stats, roster).value.rows ==
      Joined(MergePieces(stats.rows, ColumnCells(stats, "player_id"), Entries(roster)))
  {
  }

  /** The left merge keeps every stats row: row `i` heads the merged row at the offset
      where its predecessors' merged rows end. */
  lemma LeftMergeKeepsRows(stats: Frame, roster: Frame, i: nat)
    requires Aligned(stats) && Aligned(roster) && roster.columns == RosterColumns
    requires LeftMerge(stats, roster).Ok? && i < |stats.rows|
    ensures exists j :: (0 <= j < |LeftMerge(stats, roster).value.rows| &&
      LeftMerge(stats, roster).value.rows[j][..|stats.columns|] == stats.rows[i])
  {
    var ids, es := ColumnCells(stats, "player_id"), Entries(roster);
    var pieces := MergePieces(stats.rows, ids, es);
    JoinedAt(pieces, i);
    var off := |Joined(pieces[..i])|;
    var mine := pieces[i];
    assert mine[0] in mine;
    MergeRowShape(stats.rows[i], ids[i], es, mine[0]);
    assert LeftMerge(stats, roster).value.rows[off] == mine[0];
  }

  /** Every merged row is a stats row followed by either the position and number of a
      roster row with that player's id, or two missing values when the roster has none. */
  lemma LeftMergeRowSource(stats: Frame, roster: Frame, j: nat)
    requires Aligned(stats) && Aligned(roster) && roster.columns == RosterColumns
    requires LeftMerge(stats, roster).Ok? && j < |LeftMerge(stats, roster).value.rows|
    ensures var o := LeftMerge(stats, roster).value.rows[j]; var n := |stats.columns|;
      exists i :: 0 <= i < |stats.rows| && o[..n] == stats.rows[i] &&
        var id := Get(stats.columns, stats.rows[i], "player_id");
        ((o[n..] == [Blank, Blank] && forall q :: 0 <= q < |roster.rows| ==> roster.rows[q][0] != id) ||
         (exists q :: 0 <= q < |roster.rows| && roster.rows[q][0] == id && o[n..] == roster.rows[q][1..]))
  {
    var ids, es := ColumnCells(stats, "player_id"), Entries(roster);
    var n := |stats.columns|;
    LeftMergeRows(stats, roster);
    var o := Joined(MergePieces(stats.rows, ids, es))[j];
    var i := MergedRowSource(stats.rows, ids, es, j, n);
    var id := ids[i];
    if o[n..] == [Blank, Blank] && forall e :: e in es ==> e.playerId != id {
      NoEntryNoRow(roster, id);
    } else {
      var e :| e in es && e.playerId == id && o[n..] == [e.position, e.jerseyNumber];
      EntryRow(roster, e);
    }
  }

  /** Each merged row is one stats row of width `n` with either two missing values or
      the position and number of an entry with that row's id. */
  lemma MergedRowSource(rows: seq<seq<Cell>>, ids: seq<Cell>, es: seq<RosterEntry>, j: nat, n: nat)
    returns (i: nat)
    requires |ids| == |rows| && forall r :: r in rows ==> |r| == n
    requires j < |Joined(MergePieces(rows, ids, es))|
    ensures var o := Joined(MergePieces(rows, ids, es))[j];
      |o| == n + 2 && i < |rows| && o[..n] == rows[i] &&
      ((o[n..] == [Blank, Blank] && forall e :: e in es ==> e.playerId != ids[i]) ||
       (exists e :: e in es && e.playerId == ids[i] && o[n..] == [e.position, e.jerseyNumber]))
  {
    var pieces := MergePieces(rows, ids, es);
    var o := Joined(pieces)[j];
    JoinedSource(pieces, j);
    i :| 0 <= i < |rows| && o in pieces[i];
    assert rows[i] in rows;
    MergeRowShape(rows[i], ids[i], es, o);
  }

  /** No entry with the id means no roster row with it. */
  lemma NoEntryNoRow(roster: Frame, id: Cell)
    requires Aligned(roster) && roster.columns == RosterColumns
    requires forall e :: e in Entries(roster) ==> e.playerId != id
    ensures forall q :: 0 <= q < |roster.rows| ==> roster.rows[q][0] != id
  {
    var es := Entries(roster);
    forall q | 0 <= q < |roster.rows|
      ensures roster.rows[q][0] != id
    {
      assert es[q] in es;
    }
  }

  /** An entry is the id, position and number of some roster row. */
  lemma EntryRow(roster: Frame, e: RosterEntry)
    requires Aligned(roster) && roster.columns == RosterColumns
    requires e in Entries(roster)
    ensures exists q :: (0 <= q < |roster.rows| && roster.rows[q][0] == e.playerId &&
      roster.rows[q][1..] == [e.position, e.jerseyNumber])
  {
    var es := Entries(roster);
    var q :| 0 <= q < |es| && es[q] == e;
    var row := roster.rows[q];
    assert row in roster.rows;
    assert |row| == 3;
    assert es[q] == RosterEntry(row[0], row[1], row[2]);
    TailOfThree(row);
  }

  lemma TailOfThree(row: seq<Cell>)
    requires |row| == 3
    ensures row[1..] == [row[1], row[2]]
  {
  }

  /** With unique roster ids the left merge neither drops, duplicates nor reorders stats
      rows. */
  lemma LeftMergeOneToOne(stats: Frame, roster: Frame)
    requires Aligned(stats) && Aligned(roster) && roster.columns == RosterColumns
    requires LeftMerge(stats, roster).Ok?
    requires forall a, b :: 0 <= a < b < |roster.rows| ==> roster.rows[a][0] != roster.rows[b][0]
    ensures |LeftMerge(stats, roster).value.rows| == |stats.rows|
    ensures forall i :: 0 <= i < |stats.rows| ==>
      LeftMerge(stats, roster).value.rows[i][..|stats.columns|] == stats.rows[i]
  {
    var ids, es := ColumnCells(stats, "player_id"), Entries(roster);
    assert UniqueIds(es) by {
      forall a, b | 0 <= a < b < |es|
        ensures es[a].playerId != es[b].playerId
      {
        assert roster.rows[a] in roster.rows && roster.rows[b] in roster.rows;
      }
    }
    LeftMergeRows(stats, roster);
    OneToOnePieces(stats.rows, ids, es, |stats.columns|);
  }

  /** With unique ids, each row merges into exactly one row that starts with it. */
  lemma OneToOnePieces(rows: seq<seq<Cell>>, ids: seq<Cell>, es: seq<RosterEntry>, n: nat)
    requires |ids| == |rows| && UniqueIds(es) && forall r :: r in rows ==> |r| == n
    ensures var out := Joined(MergePieces(rows, ids, es));
      |out| == |rows| && forall i :: 0 <= i < |rows| ==> |out[i]| == n + 2 && out[i][..n] == rows[i]
  {
    forall i | 0 <= i < |ids|
      ensures |Matches(es, ids[i])| <= 1
    {
      MatchAtMostOne(es, ids[i]);
    }
    var pieces := MergePieces(rows, ids, es);
    assert forall i :: 0 <= i < |pieces| ==> |pieces[i]| == 1;
    JoinedLength(pieces);
    var out := Joined(pieces);
    forall i | 0 <= i < |rows|
      ensures |out[i]| == n + 2 && out[i][..n] == rows[i]
    {
      var mine := pieces[i];
      assert mine[0] in mine && out[i] == mine[0];
      assert rows[i] in rows;
      MergeRowShape(rows[i], ids[i], es, mine[0]);
    }
  }

  // ---------------------------------------------------------------------------
  // Nickname and picture address

  /** The end of the run of non-space characters starting at `i`. */
  function WordEnd(s: string, i: nat): (j: nat)
    requires i <= |s|
    decreases |s| - i
    ensures i <= j <= |s|
    ensures forall k :: i <= k < j ==> !IsSpace(s[k])
    ensures j < |s| ==> IsSpace(s[j])
  {
    if i < |s| && !IsSpace(s[i]) then WordEnd(s, i + 1) else i
  }

  /** `s.split()[0]`: the first whitespace-separated word, None when there is none. */
  function FirstWord(s: string): (r: Option<string>)
    ensures r.None? <==> forall i :: 0 <= i < |s| ==> IsSpace(s[i])
  {
    var t := LStrip(s);
    if |t| == 0 then None else Some(t[..WordEnd(t, 0)])
  }

  /** The first word is the maximal run of non-space characters after the leading
      whitespace: it is not empty, holds no whitespace, and ends at the end of the string
      or at a whitespace character. */
  lemma FirstWordIsFirstRun(s: string)
    requires FirstWord(s).Some?
    ensures var k := |s| - |LStrip(s)|; var w := FirstWord(s).value;
      |w| >= 1 && k + |w| <= |s| && s[k..k + |w|] == w &&
      (forall i :: 0 <= i < k ==> IsSpace(s[i])) &&
      (forall i :: 0 <= i < |w| ==> !IsSpace(w[i])) &&
      (k + |w| == |s| || IsSpace(s[k + |w|]))
  {
    var t := LStrip(s);
    var k := |s| - |t|;
    var e := WordEnd(t, 0);
    RunInSuffix(s, k, t, e, FirstWord(s).value);
  }

  /** A run of non-space characters at the start of a suffix of `s` is the same run in `s`. */
  lemma RunInSuffix(s: string, k: nat, t: string, e: nat, w: string)
    requires k <= |s| && t == s[k..] && 1 <= e <= |t| && w == t[..e]
    requires forall i :: 0 <= i < e ==> !IsSpace(t[i])
    requires e < |t| ==> IsSpace(t[e])
    ensures |w| >= 1 && k + |w| <= |s| && s[k..k + |w|] == w
    ensures forall i :: 0 <= i < |w| ==> !IsSpace(w[i])
    ensures k + |w| == |s| || IsSpace(s[k + |w|])
  {
    assert |w| == e;
    assert s[k..k + e] == w;
    forall i | 0 <= i < e
      ensures !IsSpace(w[i])
    {
      assert w[i] == t[i];
    }
    if k + e < |s| {
      assert s[k + e] == t[e];
    }
  }

  /** `x.split()[0] if isinstance(x, str) else None`: IndexError for a name made only of
      whitespace. */
  function Nickname(name: Cell): (r: Result<Cell>)
    ensures r.Err? <==> name.TextCell? && FirstWord(name.t).None?
    ensures r.Err? ==> r.error == IndexError
    ensures r.Ok? && name.TextCell? ==> r.value == TextCell(FirstWord(name.t).value)
    ensures !name.TextCell? ==> r == Ok(Blank)
  {
    match name
    case TextCell(s) =>
      (match FirstWord(s)
       case None => Err(IndexError)
       case Some(w) => Ok(TextCell(w)))
    case _ => Ok(Blank)
  }

  /** A name's first word is the name itself when it holds no whitespace. */
  lemma NicknameOfOneWord(s: string)
    requires |s| >= 1 && forall i :: 0 <= i < |s| ==> !IsSpace(s[i])
    ensures Nickname(TextCell(s)) == Ok(TextCell(s))
  {
    LStripNoEdge(s);
    WordEndAll(s, 0);
    assert s[..|s|] == s;
  }

  lemma {:induction false} WordEndAll(s: string, i: nat)
    requires i <= |s| && forall k :: i <= k < |s| ==> !IsSpace(s[k])
    ensures WordEnd(s, i) == |s|
    decreases |s| - i
  {
    if i < |s| {
      WordEndAll(s, i + 1);
    }
  }

  /** Spaces turned into underscores. */
  function Underscored(s: string): (r: string)
    ensures |r| == |s| && ' ' !in r
    ensures forall i :: 0 <= i < |s| ==> r[i] == if s[i] == ' ' then '_' else s[i]
  {
    seq(|s|, i requires 0 <= i < |s| => if s[i] == ' ' then '_' else s[i])
  }

  /** Underscores turned back into spaces. */
  function Spaced(s: string): (r: string)
    ensures |r| == |s|
  {
    seq(|s|, i requires 0 <= i < |s| => if s[i] == '_' then ' ' else s[i])
  }

  /** `BASE_IMAGE_URL + x.lower().replace(" ", "_") + ".png"` for a text name, None
      otherwise. */
  function ImageUrl(name: Cell): (r: Cell)
    ensures name.TextCell? <==> r.TextCell?
    ensures name.TextCell? ==> StartsWith(r.t, BaseImageUrl) && EndsWith(r.t, ".png")
    ensures name.TextCell? ==> |r.t| == |BaseImageUrl| + |name.t| + 4
  {
    match name
    case TextCell(s) =>
      var u := BaseImageUrl + Underscored(Lower(s)) + ".png";
      assert u[..|BaseImageUrl|] == BaseImageUrl;
      assert u[|u| - 4..] == ".png";
      TextCell(u)
    case _ => Blank
  }

  /** The file name of a picture holds no space, and for a name without underscores it
      gives the lower-cased name back once underscores become spaces again. */
  lemma ImageUrlFileName(s: string)
    ensures var u := ImageUrl(TextCell(s)).t; var file := u[|BaseImageUrl|..|u| - 4];
      ' ' !in file && ('_' !in s ==> Spaced(file) == Lower(s))
  {
    var u := ImageUrl(TextCell(s)).t;
    var low := Lower(s);
    assert u == BaseImageUrl + Underscored(low) + ".png";
    var file := u[|BaseImageUrl|..|u| - 4];
    assert file == Underscored(low);
    if '_' !in s {
      forall i | 0 <= i < |s|
        ensures Spaced(file)[i] == low[i]
      {
        assert s[i] != '_';
        assert low[i] == LowerChar(s[i]);
      }
    }
  }

  /** The nickname column: IndexError as soon as one text name has no word. */
  function NicknameColumn(names: seq<Cell>): (r: Result<seq<Cell>>)
    ensures r.Ok? <==> forall i :: 0 <= i < |names| ==> Nickname(names[i]).Ok?
    ensures r.Err? ==> r.error == IndexError
    ensures r.Ok? ==> |r.value| == |names|
    ensures r.Ok? ==> forall i :: 0 <= i < |names| ==> Nickname(names[i]) == Ok(r.value[i])
  {
    if forall i :: 0 <= i < |names| ==> Nickname(names[i]).Ok? then
      Ok(seq(|names|, i requires 0 <= i < |names| && Nickname(names[i]).Ok? => Nickname(names[i]).value))
    else
      Err(IndexError)
  }

  /** The cells of column `c`. */
  function ColumnCells(f: Frame, c: string): (cells: seq<Cell>)
    ensures |cells| == |f.rows|
    ensures forall i :: 0 <= i < |f.rows| ==> cells[i] == Get(f.columns, f.rows[i], c)
  {
    seq(|f.rows|, i requires 0 <= i < |f.rows| => Get(f.columns, f.rows[i], c))
  }

  // ---------------------------------------------------------------------------
  // The id column and the whole pipeline

  /** `df.insert(0, 'id', range(1, len(df) + 1))`: ValueError when an `id` column already
      exists; otherwise every row gains a first cell numbering it from 1. */
  function InsertId(f: Frame): (r: Result<Frame>)
    ensures r.Ok? <==> "id" !in f.columns
    ensures r.Err? ==> r.error == ValueError
    ensures r.Ok? ==> r.value.columns == ["id"] + f.columns && |r.value.rows| == |f.rows|
    ensures r.Ok? ==> forall i :: 0 <= i < |f.rows| ==> r.value.rows[i] == [IntCell(i + 1)] + f.rows[i]
  {
    if "id" in f.columns then Err(ValueError)
    else Ok(Frame(["id"] + f.columns, seq(|f.rows|, i requires 0 <= i < |f.rows| => [IntCell(i + 1)] + f.rows[i])))
  }

  /** After the insertion row `i` answers `i + 1` under `id` and what it answered before
      under every other name, and the frame stays aligned. */
  lemma InsertIdGet(f: Frame, i: nat, c: string)
    requires InsertId(f).Ok? && i < |f.rows|
    ensures var g := InsertId(f).value;
      Get(g.columns, g.rows[i], "id") == IntCell(i + 1) &&
      (c != "id" ==> Get(g.columns, g.rows[i], c) == Get(f.columns, f.rows[i], c))
  {
    var g := InsertId(f).value;
    assert g.columns[1..] == f.columns && g.rows[i][1..] == f.rows[i];
  }

  lemma InsertIdAligned(f: Frame)
    requires InsertId(f).Ok? && Aligned(f)
    ensures Aligned(InsertId(f).value)
  {
    var g := InsertId(f).value;
    forall r | r in g.rows
      ensures |r| == |g.columns|
    {
      var i :| 0 <= i < |g.rows| && r == g.rows[i];
      assert f.rows[i] in f.rows;
    }
  }

  /** The roster reduced to player_id, position and jersey_number after renaming;
      KeyError when one of them is missing. */
  function ReducedRoster(roster: Frame): (r: Result<Frame>)
    requires Aligned(roster)
    ensures r.Ok? <==> forall c :: c in RosterColumns ==> c in RenameAll(roster, RenameRoster).columns
    ensures r.Err? ==> r.error == KeyError
    ensures r.Ok? ==> r.value.columns == RosterColumns && Aligned(r.value) && |r.value.rows| == |roster.rows|
  {
    var r := Select(RenameAll(roster, RenameRoster), RosterColumns);
    if r.Ok? then
      assert Aligned(r.value) by {
        forall row | row in r.value.rows
          ensures |row| == |RosterColumns|
        {
          var i :| 0 <= i < |r.value.rows| && r.value.rows[i] == row;
        }
      }
      r
    else r
  }

  /** The nickname and image_url columns, both computed from player_name: KeyError without
      a player_name column, IndexError when a text name holds no word. */
  function AddNameColumns(m: Frame): (r: Result<Frame>)
    requires Aligned(m)
    ensures r.Ok? <==> ("player_name" in m.columns &&
      forall i :: 0 <= i < |m.rows| ==> Nickname(Get(m.columns, m.rows[i], "player_name")).Ok?)
    ensures r.Err? ==> r.error == (if "player_name" in m.columns then IndexError else KeyError)
    ensures r.Ok? ==> Aligned(r.value) && |r.value.rows| == |m.rows|
    ensures r.Ok? ==> forall c :: c in r.value.columns <==> c in m.columns || c == "nickname" || c == "image_url"
  {
    if "player_name" !in m.columns then Err(KeyError)
    else
      var names := ColumnCells(m, "player_name");
      match NicknameColumn(names)
      case Err(e) => Err(e)
      case Ok(nicks) =>
        var m1 := SetColumn(m, "nickname", nicks);
        Ok(SetColumn(m1, "image_url", seq(|names|, i requires 0 <= i < |names| => ImageUrl(names[i]))))
  }

  /** After the two assignments each row keeps its player_name, and holds the nickname
      and the picture address of that name. */
  lemma AddNameColumnsRow(m: Frame, i: nat)
    requires Aligned(m) && AddNameColumns(m).Ok? && i < |m.rows|
    ensures var name := Get(m.columns, m.rows[i], "player_name");
      var g := AddNameColumns(m).value;
      Get(g.columns, g.rows[i], "player_name") == name &&
      Nickname(name) == Ok(Get(g.columns, g.rows[i], "nickname")) &&
      Get(g.columns, g.rows[i], "image_url") == ImageUrl(name)
  {
    var names := ColumnCells(m, "player_name");
    var nicks := NicknameColumn(names).value;
    var m1 := SetColumn(m, "nickname", nicks);
    var urls := seq(|names|, i requires 0 <= i < |names| => ImageUrl(names[i]));
    var g := SetColumn(m1, "image_url", urls);
    assert AddNameColumns(m).value == g;
    assert Nickname(names[i]) == Ok(nicks[i]);
    SetTwoColumns(m, "nickname", nicks, "image_url", urls, i, "player_name");
  }

  /** A card frame: aligned, and every row carries its running id first, a nickname that
      is the first word of the player name, and the picture address of that name. */
  predicate IsCard(card: Frame) {
    Aligned(card) && |card.columns| > 33 &&
    forall i :: 0 <= i < |card.rows| ==>
      |card.rows[i]| > 33 &&
      card.rows[i][0] == IntCell(i + 1) &&
      Nickname(card.rows[i][2]) == Ok(card.rows[i][3]) &&
      card.rows[i][33] == ImageUrl(card.rows[i][2])
  }

  /** The card pipeline for a column order that puts id, player_name, nickname and
      image_url where the card does: KeyError when the roster lacks one of its kept
      columns, then the merge, names, id and projection of the renamed stats. */
  function CardFrom(stats: Frame, roster: Frame, cols: seq<string>): (r: Result<Frame>)
    requires Aligned(stats) && Aligned(roster)
    requires |cols| > 33 && cols[0] == "id" && cols[2] == "player_name" && cols[3] == "nickname" && cols[33] == "image_url"
    ensures !RosterKeys(roster) ==> r == Err(KeyError)
    ensures r.Ok? ==> r.value.columns == cols && IsCard(r.value)
    ensures r.Ok? ==> |r.value.rows| >= |stats.rows|
  {
    match ReducedRoster(roster)
    case Err(e) => Err(e)
    case Ok(ro) => CardOfRenamed(RenameAll(stats, RenameStats), ro, cols)
  }

  /** The roster has player_id, position and jersey_number once renamed. */
  predicate RosterKeys(roster: Frame) {
    forall c :: c in RosterColumns ==> c in RenameAll(roster, RenameRoster).columns
  }

  /** The pipeline from the merge on, for renamed stats `s` and the reduced roster `ro`. */
  function CardOfRenamed(s: Frame, ro: Frame, cols: seq<string>): (r: Result<Frame>)
    requires Aligned(s) && Aligned(ro) && ro.columns == RosterColumns
    requires |cols| > 33 && cols[0] == "id" && cols[2] == "player_name" && cols[3] == "nickname" && cols[33] == "image_url"
    ensures r.Ok? ==> r.value.columns == cols && IsCard(r.value)
    ensures r.Ok? ==> |r.value.rows| >= |s.rows|
  {
    match LeftMerge(s, ro)
    case Err(e) => Err(e)
    case Ok(m) =>
      match AddNameColumns(m)
      case Err(e) => Err(e)
      case Ok(m2) =>
        match InsertId(m2)
        case Err(e) => Err(e)
        case Ok(m3) =>
          var r := Select(m3, cols);
          if r.Ok? then
            CardRows(m, m2, cols, r.value);
            r
          else r
  }

  lemma DesiredOrderPositions()
    ensures |DesiredOrder| == 36 && DesiredOrder[0] == "id" && DesiredOrder[2] == "player_name"
    ensures DesiredOrder[3] == "nickname" && DesiredOrder[33] == "image_url"
  {
  }

  /** The row facts of the card, for any column order that puts id, player_name,
      nickname and image_url where the card does. */
  lemma CardRows(m: Frame, m2: Frame, cols: seq<string>, card: Frame)
    requires Aligned(m) && AddNameColumns(m) == Ok(m2) && InsertId(m2).Ok?
    requires |cols| > 33 && cols[0] == "id" && cols[2] == "player_name" && cols[3] == "nickname" && cols[33] == "image_url"
    requires Select(InsertId(m2).value, cols) == Ok(card)
    ensures card.columns == cols && IsCard(card) && |card.rows| == |m.rows|
  {
    var m3 := InsertId(m2).value;
    assert |card.rows| == |m3.rows| == |m2.rows| == |m.rows|;
    assert card.columns == cols && Aligned(card);
    forall i | 0 <= i < |card.rows|
      ensures |card.rows[i]| > 33
      ensures card.rows[i][0] == IntCell(i + 1)
      ensures Nickname(card.rows[i][2]) == Ok(card.rows[i][3])
      ensures card.rows[i][33] == ImageUrl(card.rows[i][2])
    {
      CardRow(m, m2, cols, card, i);
    }
  }

  /** One row of `CardRows`. */
  lemma CardRow(m: Frame, m2: Frame, cols: seq<string>, card: Frame, i: nat)
    requires Aligned(m) && AddNameColumns(m) == Ok(m2) && InsertId(m2).Ok?
    requires |cols| > 33 && cols[0] == "id" && cols[2] == "player_name" && cols[3] == "nickname" && cols[33] == "image_url"
    requires Select(InsertId(m2).value, cols) == Ok(card) && i < |card.rows|
    ensures |card.rows[i]| > 33
    ensures card.rows[i][0] == IntCell(i + 1)
    ensures Nickname(card.rows[i][2]) == Ok(card.rows[i][3])
    ensures card.rows[i][33] == ImageUrl(card.rows[i][2])
  {
    var m3 := InsertId(m2).value;
    assert card.rows[i][0] == Get(m3.columns, m3.rows[i], "id");
    assert card.rows[i][2] == Get(m3.columns, m3.rows[i], "player_name");
    assert card.rows[i][3] == Get(m3.columns, m3.rows[i], "nickname");
    assert card.rows[i][33] == Get(m3.columns, m3.rows[i], "image_url");
    AddNameColumnsRow(m, i);
    InsertIdGet(m2, i, "player_name");
    InsertIdGet(m2, i, "nickname");
    InsertIdGet(m2, i, "image_url");
  }

  // ---------------------------------------------------------------------------
  // When the card pipeline fails, and where the card rows come from

  /** The names the pipeline looks up before its final projection: the roster's three
      kept columns, and player_id and player_name among the renamed stats `s`. */
  predicate CardKeys(s: Frame, roster: Frame) {
    RosterKeys(roster) && "player_id" in s.columns && "player_name" in s.columns
  }

  /** Every text player name holds a word. */
  predicate NamesHaveWords(s: Frame) {
    forall i :: 0 <= i < |s.rows| ==> Nickname(Get(s.columns, s.rows[i], "player_name")).Ok?
  }

  /** The columns the pipeline adds to the renamed stats. */
  const AddedColumns: seq<string> := ["id", "nickname", "image_url", "position", "jersey_number"]

  /** Every name of `cols` is a renamed stats column or one the pipeline adds. */
  predicate CardColumnsPresent(s: Frame, cols: seq<string>) {
    forall c :: c in cols ==> c in s.columns || c in AddedColumns
  }

  /** Card row `o`, laid out by `cols`, holds the stats row's cell under every stats
      column it shows, save the nickname and image_url the pipeline computes itself. */
  predicate Carries(s: Frame, row: seq<Cell>, cols: seq<string>, o: seq<Cell>) {
    |o| == |cols| &&
    forall k :: 0 <= k < |cols| && cols[k] in s.columns && cols[k] != "nickname" && cols[k] != "image_url" ==>
      o[k] == Get(s.columns, row, cols[k])
  }
}
