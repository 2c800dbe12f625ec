/** nba_leaders_scrape_request.py: the earlier league-leaders script. Four league-dash
    tables are filtered by minutes and games played and their rank columns replaced by
    average ranks; eleven play-type tables are filtered by possessions, given descending
    min-rank columns and concatenated; every save deletes the sheet and writes it again
    at the end of the workbook; and generate_summary_tab collects the top-10 ranks of the
    sheets whose name contains "Rank". Each API response is a parameter (the table it
    holds); the workbook is its list of sheet names and a function reading a sheet. */
module LeadersScrape {
  import opened Wrappers
  import opened Text
  import opened Lists
  import opened Frames
  import opened Ranks
  import opened RankedFrames
  import LeadersReformatted

  // ---------------------------------------------------------------------------
  // Request parameters
  // ---------------------------------------------------------------------------

  /** A request's query parameters. */
  type Query = map<string, string>

  /** params1: the Advanced league-dash request over the last 5 games of 2023-24. */
  const Params1: Query := map[
    "College" := "", "Conference" := "", "Country" := "", "DateFrom" := "", "DateTo" := "",
    "Division" := "", "DraftPick" := "", "DraftYear" := "", "GameScope" := "", "GameSegment" := "",
    "Height" := "", "ISTRound" := "", "LastNGames" := "5", "LeagueID" := "00", "Location" := "",
    "MeasureType" := "Advanced", "Month" := "0", "OpponentTeamID" := "0", "Outcome" := "",
    "PORound" := "0", "PaceAdjust" := "N", "PerMode" := "Totals", "Period" := "0",
    "PlayerExperience" := "", "PlayerPosition" := "", "PlusMinus" := "N", "Rank" := "N",
    "Season" := "2023-24", "SeasonSegment" := "", "SeasonType" := "Regular Season",
    "ShotClockRange" := "", "StarterBench" := "", "TeamID" := "0", "VsConference" := "",
    "VsDivision" := "", "Weight" := ""]

  /** `q` agrees with params1 on every key but `except1` and `except2`. */
  predicate SameOtherwise(q: Query, except1: string, except2: string) {
    q.Keys == Params1.Keys && forall k :: k in Params1 && k != except1 && k != except2 ==> q[k] == Params1[k]
  }

  /** params2: a copy of params1 over the last 10 games. */
  function Params2(): (q: Query)
    ensures SameOtherwise(q, "LastNGames", "LastNGames")
    ensures q["LastNGames"] == "10" && q["MeasureType"] == "Advanced"
  {
    Params1Values();
    Params1["LastNGames" := "10"]
  }

  /** params3: a copy of params1 for the Base measures. */
  function Params3(): (q: Query)
    ensures SameOtherwise(q, "MeasureType", "MeasureType")
    ensures q["LastNGames"] == "5" && q["MeasureType"] == "Base"
  {
    Params1Values();
    Params1["MeasureType" := "Base"]
  }

  /** params4: a copy of params2 for the Base measures, so params1 with both changes. */
  function Params4(): (q: Query)
    ensures SameOtherwise(q, "LastNGames", "MeasureType")
    ensures q["LastNGames"] == "10" && q["MeasureType"] == "Base"
    ensures q == Params3()["LastNGames" := "10"]
  {
    Params2()["MeasureType" := "Base"]
  }

  /** One league-dash pass of the script: its request, games-played threshold, rank
      columns and sheet name. */
  datatype Pass = Pass(query: Query, minGames: real, rankColumns: seq<string>, sheet: string)

  /** The four league-dash passes, in the order the script runs them. */
  function Passes(): (ps: seq<Pass>)
    ensures |ps| == 4
    ensures forall k :: 0 <= k < 4 ==> ps[k].query.Keys == Params1.Keys
  {
    [Pass(Params1, 4.0, LeadersReformatted.RankColumns, "Last 5 Advanced"),
     Pass(Params2(), 8.0, LeadersReformatted.RankColumns, "Last 10 Advanced"),
     Pass(Params3(), 4.0, LeadersReformatted.RankColumns2, "Last 5 Basic"),
     Pass(Params4(), 8.0, LeadersReformatted.RankColumns2, "Last 10 Basic")]
  }

  /** A pass asks for 4 games out of the last 5 or 8 out of the last 10, ranks the
      Advanced or Base columns according to its MeasureType, and names its sheet after
      both. */
  predicate Consistent(p: Pass) {
    "LastNGames" in p.query && "MeasureType" in p.query
    && (p.query["LastNGames"] == "5" ==> p.minGames == 4.0)
    && (p.query["LastNGames"] == "10" ==> p.minGames == 8.0)
    && (p.query["MeasureType"] == "Advanced" ==> p.rankColumns == LeadersReformatted.RankColumns)
    && (p.query["MeasureType"] == "Base" ==> p.rankColumns == LeadersReformatted.RankColumns2)
    && p.sheet == "Last " + p.query["LastNGames"] + " " + (if p.query["MeasureType"] == "Base" then "Basic" else "Advanced")
  }

  /** Every pass of the script is consistent. */
  lemma PassesConsistent(k: nat)
    requires k < 4
    ensures Consistent(Passes()[k])
  {
    var ps := Passes();
    SheetNames();
    if k == 0 {
      Params1Values();
      assert ps[0] == Pass(Params1, 4.0, LeadersReformatted.RankColumns, "Last 5 Advanced");
      PassConsistent(ps[0], "5", "Advanced");
    } else if k == 1 {
      var q := Params2();
      assert ps[1] == Pass(q, 8.0, LeadersReformatted.RankColumns, "Last 10 Advanced");
      PassConsistent(ps[1], "10", "Advanced");
    } else if k == 2 {
      var q := Params3();
      assert ps[2] == Pass(q, 4.0, LeadersReformatted.RankColumns2, "Last 5 Basic");
      PassConsistent(ps[2], "5", "Base");
    } else {
      var q := Params4();
      assert ps[3] == Pass(q, 8.0, LeadersReformatted.RankColumns2, "Last 10 Basic");
      PassConsistent(ps[3], "10", "Base");
    }
  }

  lemma SheetNames()
    ensures "Last " + "5" + " " + "Advanced" == "Last 5 Advanced"
    ensures "Last " + "10" + " " + "Advanced" == "Last 10 Advanced"
    ensures "Last " + "5" + " " + "Basic" == "Last 5 Basic"
    ensures "Last " + "10" + " " + "Basic" == "Last 10 Basic"
  {
  }

  lemma PassConsistent(p: Pass, lastN: string, measure: string)
    requires "LastNGames" in p.query && p.query["LastNGames"] == lastN
    requires "MeasureType" in p.query && p.query["MeasureType"] == measure
    requires (lastN == "5" && p.minGames == 4.0) || (lastN == "10" && p.minGames == 8.0)
    requires (measure == "Advanced" && p.rankColumns == LeadersReformatted.RankColumns)
      || (measure == "Base" && p.rankColumns == LeadersReformatted.RankColumns2)
    requires measure == "Base" ==> p.sheet == "Last " + lastN + " " + "Basic"
    requires measure != "Base" ==> p.sheet == "Last " + lastN + " " + "Advanced"
    ensures Consistent(p)
  {
  }

  lemma Params1Values()
    ensures "LastNGames" in Params1 && Params1["LastNGames"] == "5"
    ensures "MeasureType" in Params1 && Params1["MeasureType"] == "Advanced"
    ensures "Season" in Params1 && Params1["Season"] == "2023-24"
  {
  }

  // ---------------------------------------------------------------------------
  // process_data and rank_players
  // ---------------------------------------------------------------------------

  /** process_data: `df[(df['MIN'] >= min_minutes) & (df['GP'] >= min_games)]`; KeyError
      when either column is missing. */
  function ProcessData(t: Table, minMinutes: real, minGames: real): (r: Result<Table>)
    ensures r.Err? <==> "MIN" !in t.columns || "GP" !in t.columns
    ensures r.Err? ==> r.error == KeyError
    ensures r.Ok? ==> r.value.columns == t.columns && |r.value.rows| <= |t.rows|
    ensures r.Ok? ==> forall row :: row in r.value.rows <==>
      row in t.rows && AtLeast(row, "MIN", minMinutes) && AtLeast(row, "GP", minGames)
  {
    if "MIN" !in t.columns || "GP" !in t.columns then Err(KeyError)
    else Ok(KeepAtLeast(KeepAtLeast(t, "MIN", minMinutes), "GP", minGames))
  }

  /** Both masks keep order and repetitions: the rows of two stretches are filtered
      separately, and one row is kept exactly when it passes both thresholds. */
  lemma ProcessDataAppend(cols: seq<string>, a: seq<map<string, Cell>>, b: seq<map<string, Cell>>,
                          minMinutes: real, minGames: real)
    requires "MIN" in cols && "GP" in cols
    ensures ProcessData(Table(cols, a + b), minMinutes, minGames).value.rows
      == ProcessData(Table(cols, a), minMinutes, minGames).value.rows
       + ProcessData(Table(cols, b), minMinutes, minGames).value.rows
    ensures |b| == 1 ==>
      ProcessData(Table(cols, b), minMinutes, minGames).value.rows
      == (if AtLeast(b[0], "MIN", minMinutes) && AtLeast(b[0], "GP", minGames) then b else [])
  {
    var ka := KeepRows(a, "MIN", minMinutes);
    var kb := KeepRows(b, "MIN", minMinutes);
    KeepRowsAppend(a, b, "MIN", minMinutes);
    KeepRowsAppend(ka, kb, "GP", minGames);
    if |b| == 1 {
      if AtLeast(b[0], "MIN", minMinutes) {
        KeepRowsAppend([], kb, "GP", minGames);
      } else {
        KeepRowsAppend([], [], "GP", minGames);
      }
    }
  }

  /** rank_players: each listed column replaced by its ascending average rank, then the
      index reset (the model's rows carry no index labels, so the reset changes nothing). */
  method RankPlayers(t: Table, rankColumns: seq<string>) returns (r: Result<Table>)
    ensures r == WithAverageRanks(t, rankColumns)
  {
    r := LeadersReformatted.RankPlayers(t, rankColumns, []);
  }

  /** A ranked column holds the average ranks of the original column: tied values share
      the mean of their positions, and the ranks of the present values sum to P(P+1)/2,
      which is n(n+1)/2 when all n rows have a value. */
  lemma RankedColumnSum(t: Table, cols: seq<string>, k: nat)
    requires Distinct(cols) && k < |cols|
    requires WithAverageRanks(t, cols).Ok?
    ensures var u := WithAverageRanks(t, cols).value;
      var xs := NumColumn(t, cols[k]);
      && NumColumn(u, cols[k]) == AverageRank(xs)
      && SumPresent(NumColumn(u, cols[k])) == (Present(xs) * (Present(xs) + 1)) as real / 2.0
      && ((forall i :: 0 <= i < |xs| ==> xs[i].Some?) ==> Present(xs) == |t.rows|)
  {
    var xs := NumColumn(t, cols[k]);
    AverageRankedColumn(t, cols, k);
    AverageRankSum(xs);
    if forall i :: 0 <= i < |xs| ==> xs[i].Some? {
      AllPresent(xs);
    }
  }

  lemma AverageRankedColumn(t: Table, cols: seq<string>, k: nat)
    requires Distinct(cols) && k < |cols|
    requires WithAverageRanks(t, cols).Ok?
    ensures NumColumn(WithAverageRanks(t, cols).value, cols[k]) == AverageRank(NumColumn(t, cols[k]))
  {
    var u := WithAverageRanks(t, cols).value;
    var xs := NumColumn(t, cols[k]);
    RanksInPlaceHold(t, cols, AverageRank);
    var cells := RankCells(t, cols[k], AverageRank);
    forall i | 0 <= i < |t.rows|
      ensures NumColumn(u, cols[k])[i] == AverageRank(xs)[i]
    {
      assert At(u.rows[i], cols[k]) == CellAt(cells, i);
    }
  }

  // ---------------------------------------------------------------------------
  // The play-type loop
  // ---------------------------------------------------------------------------

  /** One play type's frame: `df5[df5['POSS'] >= 20]` (KeyError without a POSS column),
      then a descending min-rank column for each field to rank. */
  function PlayTypePiece(t: Table): (r: Result<Table>)
    ensures r.Err? ==> r.error == KeyError
    ensures "POSS" !in t.columns ==> r.Err?
    ensures r.Ok? ==> |r.value.rows| == |KeepAtLeast(t, "POSS", 20.0).rows|
  {
    if "POSS" !in t.columns then Err(KeyError)
    else WithMinRanks(KeepAtLeast(t, "POSS", 20.0), LeadersReformatted.FieldsToRank)
  }

  /** The columns of `cs` that `have` lacks, in order. */
  function NewColumns(have: seq<string>, cs: seq<string>): (out: seq<string>)
    ensures forall c :: c in out <==> c in cs && c !in have
  {
    if |cs| == 0 then []
    else NewColumns(have, cs[..|cs| - 1]) + (if cs[|cs| - 1] in have then [] else [cs[|cs| - 1]])
  }

  /** `pd.concat([a, b], ignore_index=True)`: the rows of `a` then those of `b`, with the
      columns of both (a row lacking a column reads as missing). */
  function ConcatTables(a: Table, b: Table): (u: Table)
    ensures u.rows == a.rows + b.rows
    ensures forall c :: c in u.columns <==> c in a.columns || c in b.columns
  {
    Table(a.columns + NewColumns(a.columns, b.columns), a.rows + b.rows)
  }

  /** A per-response frame builder, such as PlayTypePiece. */
  type Builder = Table -> Result<Table>

  /** The frames `build` makes of the responses `ts`, concatenated in order; the first
      error stops the loop. */
  function ConcatBuilt(ts: seq<Table>, build: Builder): Result<Table> {
    if |ts| == 0 then Ok(Table([], []))
    else
      var n := |ts| - 1;
      match ConcatBuilt(ts[..n], build)
      case Err(e) => Err(e)
      case Ok(acc) =>
        match build(ts[n])
        case Err(e) => Err(e)
        case Ok(p) => Ok(ConcatTables(acc, p))
  }

  /** final_df after the play types' responses `ts`, in order. */
  function PlayTypeFinal(ts: seq<Table>): Result<Table> {
    ConcatBuilt(ts, PlayTypePiece)
  }

  /** The play-type loop of the script over the responses of its play types. */
  method PlayTypeLoop(ts: seq<Table>) returns (r: Result<Table>)
    ensures r == PlayTypeFinal(ts)
  {
    var finalDf := Table([], []);
    var i := 0;
    while i < |ts|
      invariant 0 <= i <= |ts|
      invariant ConcatBuilt(ts[..i], PlayTypePiece) == Ok(finalDf)
    {
      assert ts[..i + 1][..i] == ts[..i];
      var df5 := ts[i];
      if "POSS" !in df5.columns {
        BuiltStop(ts, PlayTypePiece, i + 1);
        return Err(KeyError);
      }
      var filtered := KeepAtLeast(df5, "POSS", 20.0);
      var ranked := LeadersReformatted.RankPlayers(filtered, [], LeadersReformatted.FieldsToRank);
      assert ranked == PlayTypePiece(df5);
      if ranked.Err? {
        BuiltStop(ts, PlayTypePiece, i + 1);
        return ranked;
      }
      finalDf := ConcatTables(finalDf, ranked.value);
      i := i + 1;
    }
    assert ts[..i] == ts;
    r := Ok(finalDf);
  }

  lemma {:induction false} BuiltStop(ts: seq<Table>, build: Builder, m: nat)
    requires m <= |ts| && ConcatBuilt(ts[..m], build).Err?
    ensures ConcatBuilt(ts, build) == ConcatBuilt(ts[..m], build)
    decreases |ts| - m
  {
    if m < |ts| {
      assert ts[..m + 1][..m] == ts[..m];
      BuiltStop(ts, build, m + 1);
    } else {
      assert ts[..m] == ts;
    }
  }

  /** The frames are concatenated in response order: row i of the k-th frame is row
      (rows of the earlier frames) + i of the result. */
  lemma {:induction false} BuiltOrder(ts: seq<Table>, build: Builder, k: nat, i: nat)
    requires ConcatBuilt(ts, build).Ok? && k < |ts|
    ensures ConcatBuilt(ts[..k], build).Ok? && build(ts[k]).Ok?
    ensures i < |build(ts[k]).value.rows| ==>
      var before := |ConcatBuilt(ts[..k], build).value.rows|;
      before + i < |ConcatBuilt(ts, build).value.rows|
      && ConcatBuilt(ts, build).value.rows[before + i] == build(ts[k]).value.rows[i]
  {
    var n := |ts| - 1;
    BuiltLast(ts, build);
    var whole := ConcatBuilt(ts, build).value.rows;
    var init := ConcatBuilt(ts[..n], build).value.rows;
    var last := build(ts[n]).value.rows;
    if k < n {
      assert ts[..n][..k] == ts[..k] && ts[..n][k] == ts[k];
      BuiltOrder(ts[..n], build, k, i);
      if i < |build(ts[k]).value.rows| {
        var before := |ConcatBuilt(ts[..k], build).value.rows|;
        assert whole[before + i] == init[before + i];
      }
    } else {
      assert ts[..k] == ts[..n];
    }
  }

  /** The last response's frame is appended to those of the earlier ones. */
  lemma BuiltLast(ts: seq<Table>, build: Builder)
    requires |ts| > 0 && ConcatBuilt(ts, build).Ok?
    ensures ConcatBuilt(ts[..|ts| - 1], build).Ok? && build(ts[|ts| - 1]).Ok?
    ensures ConcatBuilt(ts, build).value.rows
      == ConcatBuilt(ts[..|ts| - 1], build).value.rows + build(ts[|ts| - 1]).value.rows
  {
  }

  /** Every row of a play type's frame has at least 20 possessions, and each field's rank
      column is the competition rank of the field among that play type's rows only. */
  lemma PlayTypePieceRows(t: Table, i: nat)
    requires PlayTypePiece(t).Ok? && i < |PlayTypePiece(t).value.rows|
    ensures AtLeast(PlayTypePiece(t).value.rows[i], "POSS", 20.0)
    ensures forall k :: 0 <= k < |LeadersReformatted.FieldsToRank| ==>
      var f := LeadersReformatted.FieldsToRank[k];
      At(PlayTypePiece(t).value.rows[i], f + "_RANK")
        == CellAt(RankCells(KeepAtLeast(t, "POSS", 20.0), f, MinRankDesc), i)
  {
    var fields := LeadersReformatted.FieldsToRank;
    var g := KeepAtLeast(t, "POSS", 20.0);
    FieldsAreNotRanks();
    RankColumnsKeep(g, fields, MinRankDesc);
    RankColumnsHold(g, fields, MinRankDesc);
    NotRankName("POSS", fields);
    assert g.rows[i] in g.rows;
  }

  /** No field to rank is itself a rank column name. */
  lemma FieldsAreNotRanks()
    ensures NoRankFields(LeadersReformatted.FieldsToRank)
  {
    var fields := LeadersReformatted.FieldsToRank;
    forall k | 0 <= k < |fields|
      ensures !EndsWith(fields[k], "_RANK")
    {
      var f := fields[k];
      assert |f| < 5 || f[|f| - 5..] != "_RANK" by {
        assert |f| >= 5 ==> f[|f| - 1] != 'K';
      }
    }
  }

  // ---------------------------------------------------------------------------
  // save_to_excel
  // ---------------------------------------------------------------------------

  /** The workbook's sheets without `name` (`del workbook[name]` when present). */
  function DropSheet(sheets: seq<string>, name: string): (r: seq<string>)
    ensures name !in r
    ensures forall s :: s in r <==> s in sheets && s != name
  {
    Without(sheets, name, name)
  }

  /** save_to_excel: the sheet is deleted when present and written anew at the end. */
  function SaveSheet(sheets: seq<string>, name: string): (r: seq<string>)
    ensures |r| > 0 && r[|r| - 1] == name && name !in r[..|r| - 1]
    ensures forall s :: s in r <==> s in sheets || s == name
  {
    var kept := DropSheet(sheets, name);
    assert (kept + [name])[..|kept|] == kept;
    kept + [name]
  }

  /** Saving a sheet leaves the other sheets in their relative order. */
  lemma SaveSheetKeepsOthers(sheets: seq<string>, name: string)
    ensures DropSheet(SaveSheet(sheets, name), name) == DropSheet(sheets, name)
  {
    var kept := DropSheet(sheets, name);
    WithoutAppend(kept, [name], name, name);
    WithoutAbsent(kept, name, name);
  }

  /** The sheets the script itself writes, in order. */
  const ScriptSheets: seq<string> := ["Last 5 Advanced", "Last 10 Advanced", "Last 5 Basic", "Last 10 Basic", "Play Type"]

  // ---------------------------------------------------------------------------
  // generate_summary_tab
  // ---------------------------------------------------------------------------

  const Summary := "Timberwolves Summary"

  /** A sheet generate_summary_tab reads: its name contains 'Rank' and is not the summary. */
  predicate IsRankSheet(name: string) {
    Contains(name, "Rank") && name != Summary
  }

  /** `[name for name in sheet_names if 'Rank' in name and name != 'Timberwolves Summary']` */
  function RankSheets(names: seq<string>): (r: seq<string>)
    ensures |r| <= |names|
    ensures forall s :: s in r <==> s in names && IsRankSheet(s)
  {
    if |names| == 0 then []
    else
      var n := |names| - 1;
      RankSheets(names[..n]) + (if IsRankSheet(names[n]) then [names[n]] else [])
  }

  /** None of the sheets the script writes has 'Rank' in its name, so generate_summary_tab
      never reads them. */
  lemma ScriptSheetsNotRanked()
    ensures forall k :: 0 <= k < |ScriptSheets| ==> !IsRankSheet(ScriptSheets[k])
  {
    forall k | 0 <= k < |ScriptSheets|
      ensures !Contains(ScriptSheets[k], "Rank")
    {
      var name := ScriptSheets[k];
      assert forall i :: 0 <= i < |name| ==> name[i] != 'R';
      AbsentFirstChar(name, "Rank");
    }
  }

  /** An entry of the summary: the player, the rank column, its rank and the sheet. */
  datatype Entry = Entry(player: Cell, stat: string, rank: real, timeframe: string)

  /** `pd.to_numeric(..., errors='coerce')` on a text value: its number, or None. */
  type Coercion = string -> Option<real>

  /** A cell after `to_numeric(errors='coerce')`: numbers and missing values stay, text
      becomes its number or missing. */
  function Coerce(c: Cell, numeric: Coercion): (d: Cell)
    ensures NumKey(c).Some? ==> NumKey(d) == NumKey(c)
    ensures c.Blank? ==> d.Blank?
    ensures c.TextCell? ==> (NumKey(d).Some? <==> numeric(c.t).Some?)
  {
    match c
    case TextCell(t) => if numeric(t).Some? then NumCell(numeric(t).value) else Blank
    case _ => c
  }

  /** `df[col] = pd.to_numeric(df[col], errors='coerce')` */
  function CoerceColumn(t: Table, col: string, numeric: Coercion): (u: Table)
    ensures |u.rows| == |t.rows|
    ensures forall i :: 0 <= i < |t.rows| ==> u.rows[i] == t.rows[i][col := Coerce(At(t.rows[i], col), numeric)]
  {
    RankedFrames.SetColumn(t, col, seq(|t.rows|, i requires 0 <= i < |t.rows| => Coerce(At(t.rows[i], col), numeric)))
  }

  /** The row ranks in the top 10 of `col`: its value is a number no larger than 10. */
  predicate Top(row: map<string, Cell>, col: string) {
    NumKey(At(row, col)).Some? && NumKey(At(row, col)).value <= 10.0
  }

  function EntryOf(row: map<string, Cell>, col: string, sheet: string): Entry
    requires Top(row, col)
  {
    Entry(At(row, "Player"), col, NumKey(At(row, col)).value, sheet)
  }

  /** `df.loc[df[col] <= 10, ['Player', col]]` turned into entries, in row order. */
  function ColumnEntries(rows: seq<map<string, Cell>>, col: string, sheet: string): (es: seq<Entry>)
    ensures |es| <= |rows|
    ensures forall e :: e in es ==> e.stat == col && e.timeframe == sheet && e.rank <= 10.0
  {
    if |rows| == 0 then []
    else
      var n := |rows| - 1;
      ColumnEntries(rows[..n], col, sheet) + (if Top(rows[n], col) then [EntryOf(rows[n], col, sheet)] else [])
  }

  /** The entries of a column are exactly the entries of its rows ranked 10 or better. */
  lemma {:induction false} ColumnEntriesExactly(rows: seq<map<string, Cell>>, col: string, sheet: string)
    ensures forall e :: e in ColumnEntries(rows, col, sheet) <==>
      exists i :: 0 <= i < |rows| && Top(rows[i], col) && e == EntryOf(rows[i], col, sheet)
  {
    if |rows| > 0 {
      var n := |rows| - 1;
      ColumnEntriesExactly(rows[..n], col, sheet);
      forall e
        ensures e in ColumnEntries(rows, col, sheet) <==>
          exists i :: 0 <= i < |rows| && Top(rows[i], col) && e == EntryOf(rows[i], col, sheet)
      {
        if exists i :: 0 <= i < |rows| && Top(rows[i], col) && e == EntryOf(rows[i], col, sheet) {
          var i :| 0 <= i < |rows| && Top(rows[i], col) && e == EntryOf(rows[i], col, sheet);
          if i < n {
            assert rows[..n][i] == rows[i];
          }
        }
        if e in ColumnEntries(rows[..n], col, sheet) {
          var i :| 0 <= i < n && Top(rows[..n][i], col) && e == EntryOf(rows[..n][i], col, sheet);
          assert rows[..n][i] == rows[i];
        }
      }
    }
  }

  /** The loop over `cols` of one sheet: the frame after coercing each column in turn, and
      the entries collected. */
  function SheetScan(t: Table, cols: seq<string>, sheet: string, numeric: Coercion): (r: (Table, seq<Entry>))
    ensures |r.0.rows| == |t.rows|
    ensures forall e :: e in r.1 ==> e.stat in cols && e.timeframe == sheet && e.rank <= 10.0
  {
    if |cols| == 0 then (t, [])
    else
      var n := |cols| - 1;
      var (u, es) := SheetScan(t, cols[..n], sheet, numeric);
      var v := CoerceColumn(u, cols[n], numeric);
      (v, es + ColumnEntries(v.rows, cols[n], sheet))
  }

  /** One sheet's entries: the columns from the third on, when it has a 'Player' column. */
  function SheetEntries(t: Table, sheet: string, numeric: Coercion): (es: seq<Entry>)
    ensures forall e :: e in es ==> e.timeframe == sheet && e.rank <= 10.0
    ensures forall e :: e in es ==> |t.columns| > 2 && e.stat in t.columns[2..] && "Player" in t.columns
  {
    if "Player" !in t.columns || |t.columns| <= 2 then []
    else SheetScan(t, t.columns[2..], sheet, numeric).1
  }

  /** The entries of the sheets `names`, read with `read`, in sheet order. */
  function AllEntries(names: seq<string>, read: string -> Table, numeric: Coercion): (es: seq<Entry>)
    ensures forall e :: e in es ==> e.timeframe in names && e.rank <= 10.0
    ensures forall e :: e in es ==> |read(e.timeframe).columns| > 2 && e.stat in read(e.timeframe).columns[2..]
  {
    if |names| == 0 then []
    else
      var n := |names| - 1;
      AllEntries(names[..n], read, numeric) + SheetEntries(read(names[n]), names[n], numeric)
  }

  /** A column scan that never coerces 'Player' leaves every row's player as it was, so the
      entries name the players of the sheet as read. */
  lemma {:induction false} ScanKeepsPlayer(t: Table, cols: seq<string>, sheet: string, numeric: Coercion)
    requires "Player" !in cols
    ensures forall i :: 0 <= i < |t.rows| ==> At(SheetScan(t, cols, sheet, numeric).0.rows[i], "Player") == At(t.rows[i], "Player")
  {
    if |cols| > 0 {
      var n := |cols| - 1;
      assert cols[n] in cols;
      assert forall c :: c in cols[..n] ==> c in cols;
      ScanKeepsPlayer(t, cols[..n], sheet, numeric);
    }
  }

  /** A value that does not coerce to a number never yields an entry. */
  lemma NonNumericNeverTop(row: map<string, Cell>, col: string, numeric: Coercion)
    requires At(row, col).TextCell? && numeric(At(row, col).t).None?
    ensures !Top(row[col := Coerce(At(row, col), numeric)], col)
  {
  }

  // ---------------------------------------------------------------------------
  // The summary sort
  // ---------------------------------------------------------------------------

  /** `sort_values(by="Player")` must put a player `a` before a player `b`: text before
      text by code points, numbers before numbers by value, and missing values last. */
  predicate PlayerBefore(a: Cell, b: Cell) {
    match (a, b)
    case (TextCell(x), TextCell(y)) => LexLess(x, y)
    case (_, Blank) => !a.Blank?
    case _ => NumKey(a).Some? && NumKey(b).Some? && NumKey(a).value < NumKey(b).value
  }

  lemma PlayerBeforeIrreflexive(a: Cell)
    ensures !PlayerBefore(a, a)
  {
    if a.TextCell? {
      LexLessIrreflexive(a.t);
    }
  }

  lemma PlayerBeforeTrans(a: Cell, b: Cell, c: Cell)
    requires PlayerBefore(a, b) && PlayerBefore(b, c)
    ensures PlayerBefore(a, c)
  {
    if a.TextCell? && b.TextCell? && c.TextCell? {
      LexLessTrans(a.t, b.t, c.t);
    }
  }

  /** Text and numeric players side by side, which pandas cannot order (TypeError). */
  predicate MixedPlayers(es: seq<Entry>) {
    exists i, j :: 0 <= i < |es| && 0 <= j < |es| && es[i].player.TextCell? && NumKey(es[j].player).Some?
  }

  predicate PlayersSorted(es: seq<Entry>) {
    forall i, j :: 0 <= i < j < |es| ==> !PlayerBefore(es[j].player, es[i].player)
  }

  /** Insert `x` before the first entry whose player it must precede. */
  function InsertByPlayer(x: Entry, es: seq<Entry>): (out: seq<Entry>)
    ensures multiset(out) == multiset(es) + multiset{x}
  {
    if |es| == 0 then [x]
    else if PlayerBefore(x.player, es[0].player) then [x] + es
    else
      assert es == [es[0]] + es[1..];
      [es[0]] + InsertByPlayer(x, es[1..])
  }

  lemma {:induction false} InsertByPlayerSorted(x: Entry, es: seq<Entry>)
    requires PlayersSorted(es)
    ensures PlayersSorted(InsertByPlayer(x, es))
  {
    if |es| == 0 {
    } else if PlayerBefore(x.player, es[0].player) {
      InsertInFront(x, es);
    } else {
      assert PlayersSorted(es[1..]) by {
        assert forall i :: 0 <= i < |es| - 1 ==> es[1..][i] == es[i + 1];
      }
      InsertByPlayerSorted(x, es[1..]);
      InsertBehind(x, es);
    }
  }

  /** An entry that must precede the first of sorted entries can go in front of them all. */
  lemma InsertInFront(x: Entry, es: seq<Entry>)
    requires PlayersSorted(es) && |es| > 0 && PlayerBefore(x.player, es[0].player)
    ensures PlayersSorted([x] + es)
  {
    var out := [x] + es;
    forall j | 0 < j < |out|
      ensures !PlayerBefore(out[j].player, x.player)
    {
      var y := es[j - 1];
      assert out[j] == y;
      if j == 1 {
        if PlayerBefore(y.player, x.player) {
          PlayerBeforeTrans(y.player, x.player, y.player);
          PlayerBeforeIrreflexive(y.player);
        }
      } else {
        assert !PlayerBefore(y.player, es[0].player);
        if PlayerBefore(y.player, x.player) {
          PlayerBeforeTrans(y.player, x.player, es[0].player);
        }
      }
    }
    assert forall i, j :: 1 <= i < j < |out| ==> out[i] == es[i - 1] && out[j] == es[j - 1];
  }

  /** An entry that need not precede the first of sorted entries is inserted among the
      rest, and the first stays first. */
  lemma InsertBehind(x: Entry, es: seq<Entry>)
    requires PlayersSorted(es) && |es| > 0 && !PlayerBefore(x.player, es[0].player)
    requires PlayersSorted(InsertByPlayer(x, es[1..]))
    ensures PlayersSorted(InsertByPlayer(x, es))
  {
    var rest := InsertByPlayer(x, es[1..]);
    assert InsertByPlayer(x, es) == [es[0]] + rest;
    forall j | 0 <= j < |rest|
      ensures !PlayerBefore(rest[j].player, es[0].player)
    {
      assert rest[j] in multiset(rest);
      assert rest[j] == x || rest[j] in multiset(es[1..]);
      if rest[j] != x {
        var k :| 0 <= k < |es[1..]| && es[1..][k] == rest[j];
        assert es[k + 1] == rest[j];
      }
    }
  }

  /** The entries sorted by player (insertion sort; pandas' default sort is not stable, so
      the order among equal players is one of those it may produce). */
  function SortByPlayer(es: seq<Entry>): (out: seq<Entry>)
    ensures multiset(out) == multiset(es)
  {
    if |es| == 0 then []
    else
      var n := |es| - 1;
      assert es == es[..n] + [es[n]];
      InsertByPlayer(es[n], SortByPlayer(es[..n]))
  }

  lemma {:induction false} SortByPlayerSorted(es: seq<Entry>)
    ensures PlayersSorted(SortByPlayer(es))
  {
    if |es| > 0 {
      var n := |es| - 1;
      SortByPlayerSorted(es[..n]);
      InsertByPlayerSorted(es[n], SortByPlayer(es[..n]));
    }
  }

  /** `pd.DataFrame(entries).sort_values(by="Player")`, or None when there are no entries. */
  function SummaryFrame(es: seq<Entry>): (r: Result<Option<seq<Entry>>>)
    ensures r.Err? <==> |es| > 0 && MixedPlayers(es)
    ensures r.Err? ==> r.error == TypeError
    ensures r.Ok? ==> (r.value.None? <==> |es| == 0)
    ensures r.Ok? && r.value.Some? ==> multiset(r.value.value) == multiset(es)
  {
    if |es| == 0 then Ok(None)
    else if MixedPlayers(es) then Err(TypeError)
    else Ok(Some(SortByPlayer(es)))
  }

  /** The summary, when there is one, is sorted by player. */
  lemma SummarySorted(es: seq<Entry>)
    requires SummaryFrame(es).Ok? && SummaryFrame(es).value.Some?
    ensures PlayersSorted(SummaryFrame(es).value.value)
  {
    SortByPlayerSorted(es);
  }

  /** generate_summary_tab: the workbook's sheets afterwards, and the summary (None when
      no rank reached the top 10, and then no sheet is written). */
  function SummaryTab(sheets: seq<string>, read: string -> Table, numeric: Coercion): (r: (seq<string>, Result<Option<seq<Entry>>>))
  {
    var wb := DropSheet(sheets, Summary);
    var summary := SummaryFrame(AllEntries(RankSheets(wb), read, numeric));
    (if summary.Ok? && summary.value.Some? then SaveSheet(wb, Summary) else wb, summary)
  }

  /** The summary sheet is written last exactly when there is a summary; otherwise any old
      summary sheet is gone. Every entry comes from a rank sheet of the workbook, ranks 10
      or better, and names a column from the third on of that sheet. */
  lemma SummaryTabProperties(sheets: seq<string>, read: string -> Table, numeric: Coercion)
    ensures var (names, summary) := SummaryTab(sheets, read, numeric);
      && (summary.Ok? && summary.value.Some? ==> names[|names| - 1] == Summary && Summary !in names[..|names| - 1])
      && (!(summary.Ok? && summary.value.Some?) ==> Summary !in names)
      && DropSheet(names, Summary) == DropSheet(sheets, Summary)
    ensures var es := AllEntries(RankSheets(DropSheet(sheets, Summary)), read, numeric);
      forall e :: e in es ==>
        e.timeframe in sheets && IsRankSheet(e.timeframe) && e.rank <= 10.0
        && |read(e.timeframe).columns| > 2 && e.stat in read(e.timeframe).columns[2..]
  {
    var wb := DropSheet(sheets, Summary);
    WithoutIdempotent(sheets, Summary);
    SaveSheetKeepsOthers(wb, Summary);
  }

  lemma WithoutIdempotent(xs: seq<string>, x: string)
    ensures Without(Without(xs, x, x), x, x) == Without(xs, x, x)
  {
    WithoutAbsent(Without(xs, x, x), x, x);
  }

  /** generate_summary_tab: drop the old summary sheet, scan the rank sheets, and write
      the summary last when there is one. */
  method GenerateSummaryTab(sheets: seq<string>, read: string -> Table, numeric: Coercion)
    returns (names: seq<string>, summary: Result<Option<seq<Entry>>>)
    ensures (names, summary) == SummaryTab(sheets, read, numeric)
  {
    var wb := DropSheet(sheets, Summary);
    var found := CollectEntries(RankSheets(wb), read, numeric);
    summary := SummaryFrame(found);
    names := if summary.Ok? && summary.value.Some? then SaveSheet(wb, Summary) else wb;
  }

  /** generate_summary_tab's loop over the rank sheets, in workbook order. */
  method CollectEntries(rankSheets: seq<string>, read: string -> Table, numeric: Coercion)
    returns (found: seq<Entry>)
    ensures found == AllEntries(rankSheets, read, numeric)
  {
    found := [];
    var i := 0;
    while i < |rankSheets|
      invariant 0 <= i <= |rankSheets|
      invariant found == AllEntries(rankSheets[..i], read, numeric)
    {
      assert rankSheets[..i + 1][..i] == rankSheets[..i];
      var sheet := rankSheets[i];
      var es := ScanSheet(read(sheet), sheet, numeric);
      found := found + es;
      i := i + 1;
    }
    assert rankSheets[..i] == rankSheets;
  }

  /** The body of that loop for one sheet: coerce each column from the third on and
      collect its top-10 rows. */
  method ScanSheet(df0: Table, sheet: string, numeric: Coercion) returns (found: seq<Entry>)
    ensures found == SheetEntries(df0, sheet, numeric)
  {
    found := [];
    if "Player" in df0.columns && |df0.columns| > 2 {
      var cols := df0.columns[2..];
      var df := df0;
      var j := 0;
      while j < |cols|
        invariant 0 <= j <= |cols|
        invariant (df, found) == SheetScan(df0, cols[..j], sheet, numeric)
      {
        assert cols[..j + 1][..j] == cols[..j];
        var col := cols[j];
        assert SheetScan(df0, cols[..j + 1], sheet, numeric) ==
          (CoerceColumn(df, col, numeric), found + ColumnEntries(CoerceColumn(df, col, numeric).rows, col, sheet));
        df := CoerceColumn(df, col, numeric);
        found := found + ColumnEntries(df.rows, col, sheet);
        j := j + 1;
      }
      assert cols[..j] == cols;
    }
  }
}
