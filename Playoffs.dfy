/** Playoff scores from the league game finder: the playoff rows are projected to six
    fields, then each game's two team rows are pivoted into one row with both scores. */
module Playoffs {
  import opened Wrappers
  import opened Text

  /** One row of the game finder: one team in one game. */
  datatype GameRow = GameRow(seasonId: string, gameId: string, matchup: string, gameDate: string,
                             teamId: int, abbreviation: string, pts: int)

  /** The six fields kept for a playoff row. */
  datatype Detail = Detail(gameId: string, matchup: string, gameDate: string, teamId: int,
                           abbreviation: string, pts: int)

  /** `games['SEASON_ID'].str.contains('4')`: a '4' anywhere in the season id. */
  predicate IsPlayoff(g: GameRow) {
    Contains(g.seasonId, "4")
  }

  /** Playoff ids ("4" + year) pass, and so does a regular-season id whose year holds a 4. */
  lemma PlayoffFilterExamples()
    ensures Contains("42021", "4") && Contains("22024", "4")
    ensures !Contains("22021", "4")
  {
    assert OccursAt("42021", "4", 0);
    assert OccursAt("22024", "4", 4);
    ContainsIff("42021", "4");
    ContainsIff("22024", "4");
    AbsentFirstChar("22021", "4");
  }

  function Project(g: GameRow): Detail {
    Detail(g.gameId, g.matchup, g.gameDate, g.teamId, g.abbreviation, g.pts)
  }

  /** The playoff rows, projected, in their order. */
  function PlayoffDetails(games: seq<GameRow>): (ds: seq<Detail>)
    ensures |ds| <= |games|
    ensures forall d :: d in ds ==> exists g :: g in games && IsPlayoff(g) && Project(g) == d
    ensures forall g :: g in games && IsPlayoff(g) ==> Project(g) in ds
  {
    if |games| == 0 then []
    else
      var n := |games| - 1;
      assert forall g :: g in games <==> g in games[..n] || g == games[n];
      PlayoffDetails(games[..n]) + (if IsPlayoff(games[n]) then [Project(games[n])] else [])
  }

  /** The filter keeps the order of the rows: the details of two stretches of rows are
      the details of the first followed by those of the second. */
  lemma {:induction false} PlayoffDetailsAppend(a: seq<GameRow>, b: seq<GameRow>)
    ensures PlayoffDetails(a + b) == PlayoffDetails(a) + PlayoffDetails(b)
    decreases |b|
  {
    if |b| == 0 {
      assert a + b == a;
    } else {
      var n := |b| - 1;
      assert (a + b)[..|a + b| - 1] == a + b[..n];
      PlayoffDetailsAppend(a, b[..n]);
    }
  }

  /** `fetch_playoff_scores`: the loop over the filtered rows, appending one detail per row. */
  method FetchPlayoffScores(games: seq<GameRow>) returns (details: seq<Detail>)
    ensures details == PlayoffDetails(games)
  {
    details := [];
    for i := 0 to |games|
      invariant details == PlayoffDetails(games[..i])
    {
      assert games[..i + 1][..i] == games[..i];
      if IsPlayoff(games[i]) {
        details := details + [Project(games[i])];
      }
    }
    assert games[..|games|] == games;
  }

  /** `pd.concat([fetch_playoff_scores(season) for season in seasons])`. */
  function AllSeasons(seasons: seq<seq<GameRow>>): (ds: seq<Detail>)
    ensures forall d :: d in ds ==> exists k :: 0 <= k < |seasons| && d in PlayoffDetails(seasons[k])
  {
    if |seasons| == 0 then []
    else
      var n := |seasons| - 1;
      var before := AllSeasons(seasons[..n]);
      assert forall d :: d in before ==> exists k :: 0 <= k < n && d in PlayoffDetails(seasons[..n][k]);
      before + PlayoffDetails(seasons[n])
  }

  /** The concatenation is empty exactly when no season has a playoff row. */
  lemma {:induction false} AllSeasonsEmpty(seasons: seq<seq<GameRow>>)
    ensures |AllSeasons(seasons)| == 0 <==> forall k :: 0 <= k < |seasons| ==> PlayoffDetails(seasons[k]) == []
  {
    if |seasons| > 0 {
      var n := |seasons| - 1;
      var init := seasons[..n];
      assert |AllSeasons(seasons)| == |AllSeasons(init)| + |PlayoffDetails(seasons[n])|;
      AllSeasonsEmpty(init);
      assert forall k :: 0 <= k < n ==> init[k] == seasons[k];
    }
  }

  // ---------------------------------------------------------------------------
  // transform_dataframe

  /** Game ids in strictly ascending string order. */
  predicate Ascending(ids: seq<string>) {
    forall i, j :: 0 <= i < j < |ids| ==> LexLess(ids[i], ids[j])
  }

  /** Place `x` among ascending ids, once. */
  function InsertAscending(ids: seq<string>, x: string): (r: seq<string>)
    requires Ascending(ids)
    ensures Ascending(r)
    ensures forall y :: y in r <==> y in ids || y == x
  {
    if |ids| == 0 then [x]
    else if ids[0] == x then ids
    else if LexLess(x, ids[0]) then
      assert forall j :: 0 < j < |ids| ==> LexLess(x, ids[j]) by {
        forall j | 0 < j < |ids| ensures LexLess(x, ids[j]) {
          LexLessTrans(x, ids[0], ids[j]);
        }
      }
      [x] + ids
    else
      LexLessTotal(x, ids[0]);
      var rest := InsertAscending(ids[1..], x);
      assert forall y :: y in ids <==> y == ids[0] || y in ids[1..];
      assert forall y :: y in rest ==> LexLess(ids[0], y);
      [ids[0]] + rest
  }

  /** The groups of `groupby('Game_ID')`: the distinct game ids in ascending order. */
  function GameIds(ds: seq<Detail>): (ids: seq<string>)
    ensures Ascending(ids)
    ensures forall x :: x in ids <==> exists d :: d in ds && d.gameId == x
  {
    if |ds| == 0 then []
    else
      var n := |ds| - 1;
      assert forall d :: d in ds <==> d in ds[..n] || d == ds[n];
      InsertAscending(GameIds(ds[..n]), ds[n].gameId)
  }

  /** The rows of one game, in their order. */
  function GroupOf(ds: seq<Detail>, id: string): (g: seq<Detail>)
    ensures forall d :: d in g <==> d in ds && d.gameId == id
  {
    if |ds| == 0 then []
    else
      var n := |ds| - 1;
      assert forall d :: d in ds <==> d in ds[..n] || d == ds[n];
      GroupOf(ds[..n], id) + (if ds[n].gameId == id then [ds[n]] else [])
  }

  /** A field of the pivoted row. */
  datatype Value = Text(s: string) | Int(i: int)

  /** One pivoted row, by column name. */
  type GameInfo = map<string, Value>

  /** The row built from a game's first two team rows; IndexError when the game has fewer
      than two. */
  function Pivot(id: string, group: seq<Detail>): (r: Result<GameInfo>)
    ensures r.Err? <==> |group| < 2
    ensures r.Err? ==> r.error == IndexError
  {
    if |group| < 2 then Err(IndexError)
    else
      var a0, a1 := group[0].abbreviation, group[1].abbreviation;
      Ok(map["Game_ID" := Text(id), "Game_Date" := Text(group[0].gameDate),
             a0 + "_PTS" := Int(group[0].pts), a1 + "_PTS" := Int(group[1].pts),
             "Matchup" := Text(a0 + " vs. " + a1)])
  }

  /** The pivoted row holds the game id, the first row's date, the matchup of the two
      abbreviations and one score column per team; when both rows carry the same
      abbreviation the second score wins the shared key. */
  lemma PivotRow(id: string, group: seq<Detail>)
    requires |group| >= 2
    ensures var row := Pivot(id, group).value;
      row.Keys == {"Game_ID", "Game_Date", "Matchup", group[0].abbreviation + "_PTS", group[1].abbreviation + "_PTS"} &&
      row["Game_ID"] == Text(id) && row["Game_Date"] == Text(group[0].gameDate) &&
      row["Matchup"] == Text(group[0].abbreviation + " vs. " + group[1].abbreviation) &&
      row[group[1].abbreviation + "_PTS"] == Int(group[1].pts) &&
      (group[0].abbreviation != group[1].abbreviation ==> row[group[0].abbreviation + "_PTS"] == Int(group[0].pts))
  {
    var a0, a1 := group[0].abbreviation, group[1].abbreviation;
    PtsKeyIsNotFixed(a0);
    PtsKeyIsNotFixed(a1);
    PtsKeyInjective(a0, a1);
  }

  /** A score key never collides with the fixed columns. */
  lemma PtsKeyIsNotFixed(a: string)
    ensures a + "_PTS" != "Game_ID" && a + "_PTS" != "Game_Date" && a + "_PTS" != "Matchup"
  {
    var k := a + "_PTS";
    assert k[|k| - 1] == 'S';
  }

  lemma PtsKeyInjective(a: string, b: string)
    ensures a + "_PTS" == b + "_PTS" <==> a == b
  {
    if a + "_PTS" == b + "_PTS" {
      assert (a + "_PTS")[..|a|] == a && (b + "_PTS")[..|b|] == b;
    }
  }

  /** The pivoted rows of the given game ids; IndexError when some game has fewer than
      two rows (every failing game raises the same error, so which one comes first does
      not show in the result). */
  function PivotAll(ds: seq<Detail>, ids: seq<string>): (r: Result<seq<GameInfo>>)
    ensures r.Ok? <==> forall i :: 0 <= i < |ids| ==> |GroupOf(ds, ids[i])| >= 2
    ensures r.Err? ==> r.error == IndexError
    ensures r.Ok? ==> |r.value| == |ids|
    ensures r.Ok? ==> forall i :: 0 <= i < |ids| ==> Pivot(ids[i], GroupOf(ds, ids[i])) == Ok(r.value[i])
  {
    if AllPivot(ds, ids) then Ok(PivotRows(ds, ids)) else Err(IndexError)
  }

  /** Every game of `ids` has at least two rows. */
  predicate AllPivot(ds: seq<Detail>, ids: seq<string>) {
    forall i :: 0 <= i < |ids| ==> |GroupOf(ds, ids[i])| >= 2
  }

  /** The pivoted row of each game of `ids`. */
  function PivotRows(ds: seq<Detail>, ids: seq<string>): (rows: seq<GameInfo>)
    requires AllPivot(ds, ids)
  {
    seq(|ids|, i requires 0 <= i < |ids| => Pivot(ids[i], GroupOf(ds, ids[i])).value)
  }

  lemma PivotRowsStep(ds: seq<Detail>, ids: seq<string>, i: nat)
    requires i < |ids| && AllPivot(ds, ids[..i + 1])
    ensures AllPivot(ds, ids[..i])
    ensures PivotRows(ds, ids[..i + 1]) == PivotRows(ds, ids[..i]) + [Pivot(ids[i], GroupOf(ds, ids[i])).value]
  {
    var a := PivotRows(ds, ids[..i + 1]);
    var b := PivotRows(ds, ids[..i]) + [Pivot(ids[i], GroupOf(ds, ids[i])).value];
    forall j | 0 <= j < |a|
      ensures a[j] == b[j]
    {
      if j < i {
        assert ids[..i + 1][j] == ids[..i][j];
      }
    }
  }

  /** `transform_dataframe`: one row per game, in ascending Game_ID order, stopping at the
      first game with fewer than two rows. When no season had a playoff row, every
      fetched frame is `pd.DataFrame([])`, their concatenation has no Game_ID column, and
      `groupby('Game_ID')` raises KeyError. */
  method TransformDataframe(ds: seq<Detail>) returns (r: Result<seq<GameInfo>>)
    ensures |ds| == 0 <==> r == Err(KeyError)
    ensures |ds| > 0 ==> r == PivotAll(ds, GameIds(ds))
  {
    if |ds| == 0 {
      return Err(KeyError);
    }
    var ids := GameIds(ds);
    var rows: seq<GameInfo> := [];
    for i := 0 to |ids|
      invariant AllPivot(ds, ids[..i]) && rows == PivotRows(ds, ids[..i])
    {
      var info := Pivot(ids[i], GroupOf(ds, ids[i]));
      if info.Err? {
        assert !AllPivot(ds, ids);
        return Err(info.error);
      }
      assert AllPivot(ds, ids[..i + 1]) by {
        assert forall j :: 0 <= j < i ==> ids[..i + 1][j] == ids[..i][j];
      }
      PivotRowsStep(ds, ids, i);
      rows := rows + [info.value];
    }
    assert ids[..|ids|] == ids;
    r := Ok(rows);
  }

  /** The transformation succeeds exactly when every game has two rows; it then yields one
      row per distinct game, in ascending Game_ID order. */
  lemma TransformShape(ds: seq<Detail>)
    ensures PivotAll(ds, GameIds(ds)).Ok? <==> forall d :: d in ds ==> |GroupOf(ds, d.gameId)| >= 2
    ensures var r := PivotAll(ds, GameIds(ds));
      r.Ok? ==> (|r.value| == |GameIds(ds)| &&
        (forall i :: 0 <= i < |r.value| ==> r.value[i]["Game_ID"] == Text(GameIds(ds)[i])) &&
        (forall i, j :: 0 <= i < j < |r.value| ==> LexLess(GameIds(ds)[i], GameIds(ds)[j])))
  {
    var ids := GameIds(ds);
    var r := PivotAll(ds, ids);
    if forall d :: d in ds ==> |GroupOf(ds, d.gameId)| >= 2 {
      forall i | 0 <= i < |ids| ensures |GroupOf(ds, ids[i])| >= 2 {
        assert ids[i] in ids;
        var d :| d in ds && d.gameId == ids[i];
      }
      forall i | 0 <= i < |ids| ensures r.value[i]["Game_ID"] == Text(ids[i]) {
        PivotRow(ids[i], GroupOf(ds, ids[i]));
      }
    } else {
      var d :| d in ds && |GroupOf(ds, d.gameId)| < 2;
      assert d.gameId in ids;
      var i :| 0 <= i < |ids| && ids[i] == d.gameId;
    }
  }
}
