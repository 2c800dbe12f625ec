/** get_player_records_full.py: a player's points records (current and best game,
    current and best season, career total) and the best game, season and career of any
    player on a team. The static player/team lists and the fetched game logs are
    parameters. */
module RecordsFull {
  import opened Wrappers

  /** An entry of the static player or team list. */
  datatype Entry = Entry(fullName: string, id: int)

  /** get_player_id / get_team_id: the id of the first entry whose full name is exactly
      `name`; ValueError when there is none. */
  function FindId(entries: seq<Entry>, name: string): (r: Result<int>)
    ensures r.Ok? <==> exists e :: e in entries && e.fullName == name
    ensures r.Ok? ==>
      exists k :: 0 <= k < |entries| && entries[k].fullName == name && entries[k].id == r.value
        && forall j :: 0 <= j < k ==> entries[j].fullName != name
    ensures r.Err? ==> r.error == ValueError
  {
    if |entries| == 0 then Err(ValueError)
    else if entries[0].fullName == name then Ok(entries[0].id)
    else
      var r := FindId(entries[1..], name);
      assert forall e :: e in entries <==> e == entries[0] || e in entries[1..];
      if r.Ok? then
        var k :| 0 <= k < |entries[1..]| && entries[1..][k].fullName == name && entries[1..][k].id == r.value
          && forall j :: 0 <= j < k ==> entries[1..][j].fullName != name;
        assert entries[k + 1] == entries[1..][k];
        assert forall j :: 1 <= j < k + 1 ==> entries[j] == entries[1..][j - 1];
        r
      else r
  }

  /** A game-log row. */
  datatype GameRow = GameRow(player: int, team: int, season: string, pts: int)

  predicate NonNegative(rows: seq<GameRow>) {
    forall r :: r in rows ==> r.pts >= 0
  }

  /** `df['PTS'].sum()`. */
  function TotalPoints(rows: seq<GameRow>): int {
    if |rows| == 0 then 0 else rows[0].pts + TotalPoints(rows[1..])
  }

  /** Points in season `s`. */
  function SeasonPoints(rows: seq<GameRow>, s: string): int {
    if |rows| == 0 then 0
    else (if rows[0].season == s then rows[0].pts else 0) + SeasonPoints(rows[1..], s)
  }

  /** Points of player `p`. */
  function PlayerPoints(rows: seq<GameRow>, p: int): int {
    if |rows| == 0 then 0
    else (if rows[0].player == p then rows[0].pts else 0) + PlayerPoints(rows[1..], p)
  }

  /** Points of player `p` in season `s`. */
  function PlayerSeasonPoints(rows: seq<GameRow>, p: int, s: string): int {
    if |rows| == 0 then 0
    else
      var own := if rows[0].player == p && rows[0].season == s then rows[0].pts else 0;
      own + PlayerSeasonPoints(rows[1..], p, s)
  }

  /** `max()` of a non-empty column: an element no smaller than any other. */
  function MaxOf(xs: seq<int>): (m: int)
    requires |xs| > 0
    ensures m in xs && forall x :: x in xs ==> x <= m
  {
    if |xs| == 1 then xs[0]
    else
      var rest := MaxOf(xs[1..]);
      assert forall x :: x in xs ==> x == xs[0] || x in xs[1..];
      if xs[0] >= rest then xs[0] else rest
  }

  function Points(rows: seq<GameRow>): (ps: seq<int>)
    ensures |ps| == |rows| && forall i :: 0 <= i < |rows| ==> ps[i] == rows[i].pts
  {
    seq(|rows|, i requires 0 <= i < |rows| => rows[i].pts)
  }

  /** `groupby('SEASON_ID')['PTS'].sum()`, one entry per row (each season's sum repeated
      for each of its rows, which leaves the maximum unchanged). */
  function SeasonTotals(rows: seq<GameRow>): (ts: seq<int>)
    ensures |ts| == |rows| && forall i :: 0 <= i < |rows| ==> ts[i] == SeasonPoints(rows, rows[i].season)
  {
    seq(|rows|, i requires 0 <= i < |rows| => SeasonPoints(rows, rows[i].season))
  }

  datatype PlayerStats = PlayerStats(currentGame: int, maxGame: int, currentSeason: int, maxSeason: int, total: int)

  /** calculate_player_stats on a game log whose first row is the latest game; IndexError
      on an empty log (`iloc[0]`). */
  function PlayerStatsOf(rows: seq<GameRow>): (r: Result<PlayerStats>)
    ensures r.Err? <==> |rows| == 0
    ensures r.Err? ==> r.error == IndexError
    ensures r.Ok? ==>
      r.value.currentGame == rows[0].pts
      && r.value.currentSeason == SeasonPoints(rows, rows[0].season)
      && r.value.total == TotalPoints(rows)
      && (exists i :: 0 <= i < |rows| && r.value.maxGame == rows[i].pts)
      && (forall i :: 0 <= i < |rows| ==> rows[i].pts <= r.value.maxGame)
      && (exists i :: 0 <= i < |rows| && r.value.maxSeason == SeasonPoints(rows, rows[i].season))
      && (forall i :: 0 <= i < |rows| ==> SeasonPoints(rows, rows[i].season) <= r.value.maxSeason)
  {
    if |rows| == 0 then Err(IndexError)
    else
      var ps := Points(rows);
      var ts := SeasonTotals(rows);
      var maxGame := MaxOf(ps);
      var maxSeason := MaxOf(ts);
      assert forall i :: 0 <= i < |rows| ==> ps[i] in ps && ts[i] in ts;
      Ok(PlayerStats(rows[0].pts, maxGame, SeasonPoints(rows, rows[0].season), maxSeason, TotalPoints(rows)))
  }

  lemma {:induction false} SeasonWithinTotal(rows: seq<GameRow>, s: string)
    requires NonNegative(rows)
    ensures SeasonPoints(rows, s) <= TotalPoints(rows)
  {
    if |rows| > 0 {
      assert rows[0] in rows;
      assert NonNegative(rows[1..]) by {
        forall r | r in rows[1..] ensures r.pts >= 0 { assert r in rows; }
      }
      SeasonWithinTotal(rows[1..], s);
    }
  }

  /** The ordering the returned dictionary promises: the best game is at least the latest
      game, the best season at least the current season, and, with points never
      negative, the career total at least the best season. */
  lemma PlayerStatsOrdered(rows: seq<GameRow>)
    requires |rows| > 0
    ensures var st := PlayerStatsOf(rows).value;
      st.maxGame >= st.currentGame && st.maxSeason >= st.currentSeason
      && (NonNegative(rows) ==> st.total >= st.maxSeason)
  {
    var st := PlayerStatsOf(rows).value;
    if NonNegative(rows) {
      var i :| 0 <= i < |rows| && st.maxSeason == SeasonPoints(rows, rows[i].season);
      SeasonWithinTotal(rows, rows[i].season);
    }
  }

  /** The logs fetched for each roster player, in roster order, reduced to that team's
      rows; a failed fetch contributes nothing. */
  function TeamLogs(fetched: seq<Result<seq<GameRow>>>, team: int): seq<GameRow> {
    if |fetched| == 0 then []
    else
      var last := fetched[|fetched| - 1];
      TeamLogs(fetched[..|fetched| - 1], team) + (if last.Ok? then TeamRows(last.value, team) else [])
  }

  /** `logs[logs['TEAM_ID'] == team_id]`. */
  function TeamRows(rows: seq<GameRow>, team: int): (out: seq<GameRow>)
    ensures forall r :: r in out <==> r in rows && r.team == team
  {
    if |rows| == 0 then []
    else
      assert forall r :: r in rows <==> r == rows[0] || r in rows[1..];
      (if rows[0].team == team then [rows[0]] else []) + TeamRows(rows[1..], team)
  }

  /** The team filter keeps the rows' order and multiplicity: filtering two stretches of
      rows gives the kept rows of the first followed by those of the second. */
  lemma {:induction false} TeamRowsAppend(a: seq<GameRow>, b: seq<GameRow>, team: int)
    ensures TeamRows(a + b, team) == TeamRows(a, team) + TeamRows(b, team)
  {
    if |a| == 0 {
      assert a + b == b;
    } else {
      assert (a + b)[0] == a[0] && (a + b)[1..] == a[1..] + b;
      TeamRowsAppend(a[1..], b, team);
    }
  }

  /** A frame of logs: `pd.DataFrame()` has no columns at all, while a frame built from
      a fetched log has them even when it has no rows. */
  datatype Logs = Logs(hasColumns: bool, rows: seq<GameRow>)

  /** Some fetch succeeded. */
  predicate AnyFetched(fetched: seq<Result<seq<GameRow>>>) {
    exists k :: 0 <= k < |fetched| && fetched[k].Ok?
  }

  /** get_team_player_game_logs over the per-player fetch results (a raised exception is
      an `Err`): `all_logs` starts as the column-less `pd.DataFrame()` and gains the log
      columns with the first successful fetch. */
  method TeamPlayerGameLogs(fetched: seq<Result<seq<GameRow>>>, team: int) returns (all: Logs)
    ensures all.rows == TeamLogs(fetched, team)
    ensures all.hasColumns <==> AnyFetched(fetched)
  {
    all := Logs(false, []);
    var i := 0;
    while i < |fetched|
      invariant 0 <= i <= |fetched|
      invariant all.rows == TeamLogs(fetched[..i], team)
      invariant all.hasColumns <==> AnyFetched(fetched[..i])
    {
      assert fetched[..i + 1][..i] == fetched[..i];
      assert forall k :: 0 <= k < i ==> fetched[..i + 1][k] == fetched[..i][k];
      if fetched[i].Ok? {
        all := Logs(true, all.rows + TeamRows(fetched[i].value, team));
        assert fetched[..i + 1][i].Ok?;
      }
      i := i + 1;
    }
    assert fetched[..|fetched|] == fetched;
  }

  /** A row is in the team's logs exactly when a successful fetch returned it for that team. */
  lemma {:induction false} TeamLogsMembers(fetched: seq<Result<seq<GameRow>>>, team: int, r: GameRow)
    ensures r in TeamLogs(fetched, team) <==>
      r.team == team && exists k :: 0 <= k < |fetched| && fetched[k].Ok? && r in fetched[k].value
  {
    if |fetched| > 0 {
      var init := fetched[..|fetched| - 1];
      TeamLogsMembers(init, team, r);
      assert forall k :: 0 <= k < |init| ==> init[k] == fetched[k];
      if r.team == team && exists k :: 0 <= k < |fetched| && fetched[k].Ok? && r in fetched[k].value {
        var k :| 0 <= k < |fetched| && fetched[k].Ok? && r in fetched[k].value;
        if k < |init| {
          assert init[k].Ok? && r in init[k].value;
        }
      }
    }
  }

  /** `groupby(['PLAYER_ID', 'SEASON_ID'])['PTS'].sum()`, one entry per row. */
  function PlayerSeasonTotals(rows: seq<GameRow>): (ts: seq<int>)
    ensures |ts| == |rows|
    ensures forall i :: 0 <= i < |rows| ==> ts[i] == PlayerSeasonPoints(rows, rows[i].player, rows[i].season)
  {
    seq(|rows|, i requires 0 <= i < |rows| => PlayerSeasonPoints(rows, rows[i].player, rows[i].season))
  }

  /** `groupby('PLAYER_ID')['PTS'].sum()`, one entry per row. */
  function PlayerTotals(rows: seq<GameRow>): (ts: seq<int>)
    ensures |ts| == |rows| && forall i :: 0 <= i < |rows| ==> ts[i] == PlayerPoints(rows, rows[i].player)
  {
    seq(|rows|, i requires 0 <= i < |rows| => PlayerPoints(rows, rows[i].player))
  }

  datatype TeamRecords = TeamRecords(maxGame: int, maxSeason: int, maxTotal: int)

  /** calculate_team_player_records: KeyError on a frame without columns (`df['PTS']`),
      `None` for a frame with columns but no rows, where every maximum is NaN. */
  function TeamRecordsOf(logs: Logs): (r: Result<Option<TeamRecords>>)
    ensures r.Err? <==> !logs.hasColumns
    ensures r.Err? ==> r.error == KeyError
    ensures r.Ok? ==> (r.value.None? <==> |logs.rows| == 0)
    ensures r.Ok? && r.value.Some? ==>
      var rows := logs.rows;
      (forall i :: 0 <= i < |rows| ==>
        rows[i].pts <= r.value.value.maxGame
        && PlayerSeasonPoints(rows, rows[i].player, rows[i].season) <= r.value.value.maxSeason
        && PlayerPoints(rows, rows[i].player) <= r.value.value.maxTotal)
      && (exists i :: 0 <= i < |rows| && r.value.value.maxGame == rows[i].pts)
      && (exists i :: 0 <= i < |rows| && r.value.value.maxSeason == PlayerSeasonPoints(rows, rows[i].player, rows[i].season))
      && (exists i :: 0 <= i < |rows| && r.value.value.maxTotal == PlayerPoints(rows, rows[i].player))
  {
    var rows := logs.rows;
    if !logs.hasColumns then Err(KeyError)
    else if |rows| == 0 then Ok(None)
    else
      var ps, ss, ts := Points(rows), PlayerSeasonTotals(rows), PlayerTotals(rows);
      assert forall i :: 0 <= i < |rows| ==> ps[i] in ps && ss[i] in ss && ts[i] in ts;
      Ok(Some(TeamRecords(MaxOf(ps), MaxOf(ss), MaxOf(ts))))
  }

  lemma {:induction false} GameWithinSeason(rows: seq<GameRow>, i: nat)
    requires NonNegative(rows) && i < |rows|
    ensures rows[i].pts <= PlayerSeasonPoints(rows, rows[i].player, rows[i].season)
  {
    var x := rows[i];
    assert NonNegative(rows[1..]) by {
      forall r | r in rows[1..] ensures r.pts >= 0 { assert r in rows; }
    }
    if i > 0 {
      assert rows[0] in rows;
      assert rows[1..][i - 1] == x;
      GameWithinSeason(rows[1..], i - 1);
    } else {
      SeasonSumNonNegative(rows[1..], x.player, x.season);
    }
  }

  lemma {:induction false} SeasonSumNonNegative(rows: seq<GameRow>, p: int, s: string)
    requires NonNegative(rows)
    ensures PlayerSeasonPoints(rows, p, s) >= 0
  {
    if |rows| > 0 {
      assert rows[0] in rows;
      assert NonNegative(rows[1..]) by {
        forall r | r in rows[1..] ensures r.pts >= 0 { assert r in rows; }
      }
      SeasonSumNonNegative(rows[1..], p, s);
    }
  }

  lemma {:induction false} SeasonWithinCareer(rows: seq<GameRow>, p: int, s: string)
    requires NonNegative(rows)
    ensures PlayerSeasonPoints(rows, p, s) <= PlayerPoints(rows, p)
  {
    if |rows| > 0 {
      assert rows[0] in rows;
      assert NonNegative(rows[1..]) by {
        forall r | r in rows[1..] ensures r.pts >= 0 { assert r in rows; }
      }
      SeasonWithinCareer(rows[1..], p, s);
    }
  }

  /** With points never negative, the team's best game is at most its best player-season,
      which is at most its best career. */
  lemma TeamRecordsOrdered(rows: seq<GameRow>)
    requires NonNegative(rows) && |rows| > 0
    ensures var t := TeamRecordsOf(Logs(true, rows)).value.value;
      t.maxGame <= t.maxSeason <= t.maxTotal
  {
    var t := TeamRecordsOf(Logs(true, rows)).value.value;
    var i :| 0 <= i < |rows| && t.maxGame == rows[i].pts;
    GameWithinSeason(rows, i);
    var j :| 0 <= j < |rows| && t.maxSeason == PlayerSeasonPoints(rows, rows[j].player, rows[j].season);
    SeasonWithinCareer(rows, rows[j].player, rows[j].season);
  }
}
