/** nba_leaders_reformatted.py: league-dash and play-type tables filtered by thresholds,
    ranked, reduced to the Timberwolves players' top-10 ranks, sorted into a summary,
    and the summary sheet moved to the front of the workbook. Each API response is a
    parameter (None when the request failed); the workbook is its list of sheet names. */
module LeadersReformatted {
  import opened Wrappers
  import opened Text
  import opened Lists
  import opened Frames
  import opened Ranks
  import opened RankedFrames

  // ---------------------------------------------------------------------------
  // get_params
  // ---------------------------------------------------------------------------

  /** A request's query parameters; a None value is a parameter passed as Python None. */
  type Params = map<string, Option<string>>

  const Season := "2024-25"

  /** The parameter `k` is set to `v`. */
  predicate Maps(p: Params, k: string, v: Option<string>) {
    k in p && p[k] == v
  }

  /** The league-dash parameter set (params1). */
  function RegularParams(lastN: Option<string>): Params {
    map["College" := Some(""), "Conference" := Some(""), "Country" := Some(""), "DateFrom" := Some(""),
        "DateTo" := Some(""), "Division" := Some(""), "DraftPick" := Some(""), "DraftYear" := Some(""),
        "GameScope" := Some(""), "GameSegment" := Some(""), "Height" := Some(""), "ISTRound" := Some(""),
        "LastNGames" := lastN, "LeagueID" := Some("00"), "Location" := Some(""),
        "MeasureType" := Some("Advanced"), "Month" := Some("0"), "OpponentTeamID" := Some("0"),
        "Outcome" := Some(""), "PORound" := Some("0"), "PaceAdjust" := Some("N"), "PerMode" := Some("Totals"),
        "Period" := Some("0"), "PlayerExperience" := Some(""), "PlayerPosition" := Some(""),
        "PlusMinus" := Some("N"), "Rank" := Some("N"), "Season" := Some(Season), "SeasonSegment" := Some(""),
        "SeasonType" := Some("Regular Season"), "ShotClockRange" := Some(""), "StarterBench" := Some(""),
        "TeamID" := Some("0"), "VsConference" := Some(""), "VsDivision" := Some(""), "Weight" := Some("")]
  }

  /** The play-type parameter set (params5). */
  function PlayTypeParams(playType: Option<string>): Params {
    map["LeagueID" := Some("00"), "PerMode" := Some("Totals"), "PlayType" := playType,
        "PlayerOrTeam" := Some("P"), "SeasonType" := Some("Regular Season"),
        "SeasonYear" := Some(Season), "TypeGrouping" := Some("offensive")]
  }

  /** get_params: the league-dash set for 'regular', the play-type set for 'playtype',
      ValueError for anything else. */
  function GetParams(statsType: string, lastN: Option<string>, playType: Option<string>): (r: Result<Params>)
    ensures r.Err? <==> statsType != "regular" && statsType != "playtype"
    ensures r.Err? ==> r.error == ValueError
    ensures statsType == "regular" ==>
      r.Ok? && Maps(r.value, "LastNGames", lastN) && Maps(r.value, "MeasureType", Some("Advanced"))
      && Maps(r.value, "Season", Some(Season)) && Maps(r.value, "PerMode", Some("Totals"))
    ensures statsType == "playtype" ==>
      r.Ok? && Maps(r.value, "PlayType", playType) && Maps(r.value, "SeasonYear", Some(Season))
      && r.value.Keys == {"LeagueID", "PerMode", "PlayType", "PlayerOrTeam", "SeasonType", "SeasonYear", "TypeGrouping"}
  {
    if statsType == "regular" then Ok(RegularParams(lastN))
    else if statsType == "playtype" then Ok(PlayTypeParams(playType))
    else Err(ValueError)
  }

  // ---------------------------------------------------------------------------
  // process_data
  // ---------------------------------------------------------------------------

  /** `filter_criteria.items()`, in insertion order. */
  type Criteria = seq<(string, real)>

  /** The frame after each criterion whose column exists keeps only its rows at or
      above the threshold. */
  function Filtered(t: Table, cs: Criteria): (u: Table)
    ensures u.columns == t.columns && |u.rows| <= |t.rows|
  {
    if |cs| == 0 then t
    else
      var n := |cs| - 1;
      var u := Filtered(t, cs[..n]);
      if cs[n].0 in u.columns then KeepAtLeast(u, cs[n].0, cs[n].1) else u
  }

  /** A row meets every criterion whose column the frame has. */
  predicate MeetsAll(row: map<string, Cell>, columns: seq<string>, cs: Criteria) {
    forall k :: 0 <= k < |cs| && cs[k].0 in columns ==> AtLeast(row, cs[k].0, cs[k].1)
  }

  /** The filtered rows are exactly the rows meeting every criterion on an existing
      column; criteria on absent columns are ignored. */
  lemma {:induction false} FilteredRows(t: Table, cs: Criteria)
    ensures forall r :: r in Filtered(t, cs).rows <==> r in t.rows && MeetsAll(r, t.columns, cs)
  {
    if |cs| > 0 {
      var n := |cs| - 1;
      FilteredRows(t, cs[..n]);
      assert forall k :: 0 <= k < n ==> cs[..n][k] == cs[k];
      forall r
        ensures MeetsAll(r, t.columns, cs) <==> MeetsAll(r, t.columns, cs[..n]) && (cs[n].0 in t.columns ==> AtLeast(r, cs[n].0, cs[n].1))
      {
        if MeetsAll(r, t.columns, cs[..n]) && (cs[n].0 in t.columns ==> AtLeast(r, cs[n].0, cs[n].1)) {
          forall k | 0 <= k < |cs| && cs[k].0 in t.columns
            ensures AtLeast(r, cs[k].0, cs[k].1)
          {
            if k < n {
              assert cs[..n][k] == cs[k];
            }
          }
        }
      }
    }
  }

  /** process_data: `df = df[df[column] >= value]` for each criterion whose column exists. */
  method ProcessData(t: Table, cs: Criteria) returns (u: Table)
    ensures u == Filtered(t, cs)
  {
    u := t;
    var i := 0;
    while i < |cs|
      invariant 0 <= i <= |cs|
      invariant u == Filtered(t, cs[..i])
    {
      assert cs[..i + 1][..i] == cs[..i];
      var (column, value) := cs[i];
      if column in u.columns {
        u := KeepAtLeast(u, column, value);
      }
      i := i + 1;
    }
    assert cs[..i] == cs;
  }

  // ---------------------------------------------------------------------------
  // rank_players
  // ---------------------------------------------------------------------------

  /** rank_players: with fields to rank (a non-empty list), each field gets a `_RANK`
      column of descending min ranks; otherwise each listed rank column is replaced by
      its ascending average ranks. */
  function Ranked(t: Table, rankCols: seq<string>, fields: seq<string>): Result<Table> {
    if |fields| > 0 then WithMinRanks(t, fields) else WithAverageRanks(t, rankCols)
  }

  method RankPlayers(t: Table, rankCols: seq<string>, fields: seq<string>) returns (r: Result<Table>)
    ensures r == Ranked(t, rankCols, fields)
  {
    var df := t;
    if |fields| > 0 {
      var i := 0;
      while i < |fields|
        invariant 0 <= i <= |fields|
        invariant WithRankColumns(t, fields[..i], MinRankDesc) == Ok(df)
      {
        assert fields[..i + 1][..i] == fields[..i];
        var field := fields[i];
        if field !in df.columns {
          RankColumnsStop(t, fields, i + 1, MinRankDesc);
          return Err(KeyError);
        }
        df := RankedFrames.SetColumn(df, field + "_RANK", RankCells(df, field, MinRankDesc));
        i := i + 1;
      }
      assert fields[..i] == fields;
    } else {
      var i := 0;
      while i < |rankCols|
        invariant 0 <= i <= |rankCols|
        invariant WithRanksInPlace(t, rankCols[..i], AverageRank) == Ok(df)
      {
        assert rankCols[..i + 1][..i] == rankCols[..i];
        var col := rankCols[i];
        if col !in df.columns {
          RanksInPlaceStop(t, rankCols, i + 1, AverageRank);
          return Err(KeyError);
        }
        df := RankedFrames.SetColumn(df, col, RankCells(df, col, AverageRank));
        i := i + 1;
      }
      assert rankCols[..i] == rankCols;
    }
    r := Ok(df);
  }

  /** A KeyError part-way stops the ranking: the result is that error. */
  lemma {:induction false} RankColumnsStop(t: Table, fields: seq<string>, m: nat, rank: Ranking)
    requires m <= |fields| && WithRankColumns(t, fields[..m], rank).Err?
    ensures WithRankColumns(t, fields, rank) == WithRankColumns(t, fields[..m], rank)
    decreases |fields| - m
  {
    if m < |fields| {
      assert fields[..m + 1][..m] == fields[..m];
      RankColumnsStop(t, fields, m + 1, rank);
    } else {
      assert fields[..m] == fields;
    }
  }

  lemma {:induction false} RanksInPlaceStop(t: Table, cols: seq<string>, m: nat, rank: Ranking)
    requires m <= |cols| && WithRanksInPlace(t, cols[..m], rank).Err?
    ensures WithRanksInPlace(t, cols, rank) == WithRanksInPlace(t, cols[..m], rank)
    decreases |cols| - m
  {
    if m < |cols| {
      assert cols[..m + 1][..m] == cols[..m];
      RanksInPlaceStop(t, cols, m + 1, rank);
    } else {
      assert cols[..m] == cols;
    }
  }

  /** With fields to rank, each `field_RANK` cell is the competition rank of the row's
      field value among the frame's values: equal values share a rank, a larger value
      ranks strictly better, and the rank lies in 1..(number of rows). */
  lemma PlayTypeRankColumn(t: Table, fields: seq<string>, k: nat, i: nat, j: nat)
    requires NoRankFields(fields) && k < |fields| && i < |t.rows| && j < |t.rows|
    requires Ranked(t, [], fields).Ok?
    requires NumKey(At(t.rows[i], fields[k])).Some? && NumKey(At(t.rows[j], fields[k])).Some?
    ensures
      var u := Ranked(t, [], fields).value;
      var ri, rj := NumKey(At(u.rows[i], fields[k] + "_RANK")), NumKey(At(u.rows[j], fields[k] + "_RANK"));
      var xi, xj := NumKey(At(t.rows[i], fields[k])).value, NumKey(At(t.rows[j], fields[k])).value;
      ri.Some? && rj.Some?
      && (xi == xj ==> ri == rj)
      && (xi > xj ==> ri.value < rj.value)
      && 1.0 <= ri.value <= |t.rows| as real
  {
    RankColumnsHold(t, fields, MinRankDesc);
    var xs := NumColumn(t, fields[k]);
    MinRankDescProperties(xs, i, j);
    MinRankDescBounds(xs, i);
  }

  /** Without fields to rank, each listed column's cell becomes the average rank of the
      row's original value: equal values share a rank, a smaller value ranks strictly
      lower, and the rank lies in 1..(number of rows). */
  lemma RegularRankColumn(t: Table, cols: seq<string>, k: nat, i: nat, j: nat)
    requires Distinct(cols) && k < |cols| && i < |t.rows| && j < |t.rows|
    requires Ranked(t, cols, []).Ok?
    requires NumKey(At(t.rows[i], cols[k])).Some? && NumKey(At(t.rows[j], cols[k])).Some?
    ensures
      var u := Ranked(t, cols, []).value;
      var ri, rj := NumKey(At(u.rows[i], cols[k])), NumKey(At(u.rows[j], cols[k]));
      var xi, xj := NumKey(At(t.rows[i], cols[k])).value, NumKey(At(t.rows[j], cols[k])).value;
      ri.Some? && rj.Some?
      && (xi == xj ==> ri == rj)
      && (xi < xj ==> ri.value < rj.value)
      && 1.0 <= ri.value <= |t.rows| as real
  {
    RanksInPlaceHold(t, cols, AverageRank);
    var xs := NumColumn(t, cols[k]);
    AverageRankProperties(xs, i, j);
  }

  // ---------------------------------------------------------------------------
  // Top-10 pieces
  // ---------------------------------------------------------------------------

  /** A summary row, with the five columns in their final order: PLAYER_NAME, Stat,
      Stat_Value, Rank, Timeframe. */
  datatype SummaryRow = SummaryRow(player: string, stat: string, statValue: Cell, rank: real, timeframe: string)

  /** `df['PLAYER_NAME'].isin(timberwolves_players)`. */
  predicate Listed(row: map<string, Cell>, wolves: seq<string>) {
    At(row, "PLAYER_NAME").TextCell? && At(row, "PLAYER_NAME").t in wolves
  }

  /** `df[col] <= 10`: false for a missing rank. */
  predicate InTopTen(row: map<string, Cell>, rankCol: string) {
    NumKey(At(row, rankCol)).Some? && NumKey(At(row, rankCol)).value <= 10.0
  }

  predicate Qualifies(row: map<string, Cell>, rankCol: string, wolves: seq<string>) {
    Listed(row, wolves) && InTopTen(row, rankCol)
  }

  function RowOf(row: map<string, Cell>, rankCol: string, stat: string, timeframe: string): SummaryRow
    requires At(row, "PLAYER_NAME").TextCell? && NumKey(At(row, rankCol)).Some?
  {
    SummaryRow(At(row, "PLAYER_NAME").t, stat, At(row, stat), NumKey(At(row, rankCol)).value, timeframe)
  }

  /** The qualifying rows of one piece, in frame order. */
  function PieceRows(rows: seq<map<string, Cell>>, rankCol: string, stat: string, timeframe: string,
                     wolves: seq<string>): (out: seq<SummaryRow>)
    ensures |out| <= |rows|
  {
    if |rows| == 0 then []
    else
      var n := |rows| - 1;
      PieceRows(rows[..n], rankCol, stat, timeframe, wolves)
      + (if Qualifies(rows[n], rankCol, wolves) then [RowOf(rows[n], rankCol, stat, timeframe)] else [])
  }

  /** A piece holds exactly one summary row per listed player's row ranked 10 or better. */
  lemma {:induction false} PieceRowsExactly(rows: seq<map<string, Cell>>, rankCol: string, stat: string,
                                            timeframe: string, wolves: seq<string>)
    ensures forall e :: e in PieceRows(rows, rankCol, stat, timeframe, wolves) <==>
      exists r :: r in rows && Qualifies(r, rankCol, wolves) && e == RowOf(r, rankCol, stat, timeframe)
  {
    if |rows| > 0 {
      var n := |rows| - 1;
      PieceRowsExactly(rows[..n], rankCol, stat, timeframe, wolves);
      assert rows == rows[..n] + [rows[n]];
      assert forall r :: r in rows <==> r in rows[..n] || r == rows[n];
    }
  }

  /** One piece: `df[df[col] <= 10][['PLAYER_NAME', col, stat]]` on the listed players;
      KeyError when one of those columns is missing. */
  function Piece(t: Table, rankCol: string, stat: string, timeframe: string, wolves: seq<string>): Result<seq<SummaryRow>> {
    if "PLAYER_NAME" !in t.columns || rankCol !in t.columns || stat !in t.columns then Err(KeyError)
    else Ok(PieceRows(t.rows, rankCol, stat, timeframe, wolves))
  }

  /** The pieces of one frame, one per (rank column, stat) pair, stopping at the first
      error. */
  function Pieces(t: Table, specs: seq<(string, string)>, timeframe: string, wolves: seq<string>): (r: Result<seq<seq<SummaryRow>>>)
    ensures r.Ok? ==> |r.value| == |specs|
  {
    if |specs| == 0 then Ok([])
    else
      var n := |specs| - 1;
      match Pieces(t, specs[..n], timeframe, wolves)
      case Err(e) => Err(e)
      case Ok(ps) =>
        match Piece(t, specs[n].0, specs[n].1, timeframe, wolves)
        case Err(e) => Err(e)
        case Ok(p) => Ok(ps + [p])
  }

  /** The regular pieces: each rank column containing "_RANK", with the stat named by the
      column with every "_RANK" removed. */
  function RegularSpecs(cols: seq<string>): (specs: seq<(string, string)>)
    ensures |specs| <= |cols|
    ensures forall s :: s in specs ==> Contains(s.0, "_RANK") && s.1 == RemoveAll(s.0, "_RANK")
  {
    if |cols| == 0 then []
    else
      var n := |cols| - 1;
      RegularSpecs(cols[..n]) + (if Contains(cols[n], "_RANK") then [(cols[n], RemoveAll(cols[n], "_RANK"))] else [])
  }

  /** The play-type pieces: each field's `_RANK` column, with the field as the stat. */
  function PlayTypeSpecs(fields: seq<string>): (specs: seq<(string, string)>)
    ensures |specs| == |fields|
    ensures forall k :: 0 <= k < |fields| ==> specs[k] == (fields[k] + "_RANK", fields[k])
  {
    seq(|fields|, k requires 0 <= k < |fields| => (fields[k] + "_RANK", fields[k]))
  }

  // ---------------------------------------------------------------------------
  // main
  // ---------------------------------------------------------------------------

  const RankColumns: seq<string> := [
    "GP_RANK", "W_RANK", "L_RANK", "W_PCT_RANK", "MIN_RANK",
    "E_OFF_RATING_RANK", "OFF_RATING_RANK", "sp_work_OFF_RATING_RANK",
    "E_DEF_RATING_RANK", "DEF_RATING_RANK", "sp_work_DEF_RATING_RANK",
    "E_NET_RATING_RANK", "NET_RATING_RANK", "sp_work_NET_RATING_RANK",
    "AST_PCT_RANK", "AST_TO_RANK", "AST_RATIO_RANK", "OREB_PCT_RANK",
    "DREB_PCT_RANK", "REB_PCT_RANK", "TM_TOV_PCT_RANK", "E_TOV_PCT_RANK",
    "EFG_PCT_RANK", "TS_PCT_RANK", "USG_PCT_RANK", "E_USG_PCT_RANK",
    "E_PACE_RANK", "PACE_RANK", "sp_work_PACE_RANK", "PIE_RANK",
    "FGM_RANK", "FGA_RANK", "FGM_PG_RANK", "FGA_PG_RANK", "FG_PCT_RANK"]

  const RankColumns2: seq<string> := [
    "FGM_RANK", "FGA_RANK", "FG_PCT_RANK", "FG3M_RANK", "FG3A_RANK",
    "FG3_PCT_RANK", "FTM_RANK", "FTA_RANK", "FT_PCT_RANK", "OREB_RANK",
    "DREB_RANK", "REB_RANK", "AST_RANK", "TOV_RANK", "STL_RANK",
    "BLK_RANK", "BLKA_RANK", "PF_RANK", "PFD_RANK", "PTS_RANK",
    "PLUS_MINUS_RANK", "NBA_FANTASY_PTS_RANK", "DD2_RANK", "TD3_RANK",
    "WNBA_FANTASY_PTS_RANK"]

  const PlayTypes: seq<string> := ["OffScreen", "Isolation", "Transition", "Postup", "Spotup",
    "Handoff", "Cut", "OffRebound", "Misc", "PRRollman", "PRBallHandler"]

  const FieldsToRank: seq<string> := ["POSS_PCT", "PPP", "FG_PCT", "FT_POSS_PCT", "TOV_POSS_PCT",
    "SF_POSS_PCT", "PLUSONE_POSS_PCT", "SCORE_POSS_PCT", "EFG_PCT", "POSS", "PTS", "FGM", "FGA", "FGMX"]

  const Timberwolves: seq<string> := ["Julius Randle", "Rudy Gobert", "Mike Conley", "Jaden McDaniels",
    "Anthony Edwards", "Naz Reid", "Nickeil Alexander-Walker", "Donte DiVincenzo", "Joe Ingles",
    "Terrence Shannon Jr.", "Rob Dillingham", "Josh Minott"]

  /** The games-played threshold: 4 over the last 5 games, 8 otherwise. */
  function GpThreshold(lastN: string): (gp: real)
    ensures lastN == "5" ==> gp == 4.0
    ensures lastN != "5" ==> gp == 8.0
  {
    if lastN == "5" then 4.0 else 8.0
  }

  /** The regular filter: at least 20 minutes and the games-played threshold. */
  function RegularCriteria(lastN: string): Criteria {
    [("MIN", 20.0), ("GP", GpThreshold(lastN))]
  }

  /** The league-dash request for one pass: get_params('regular') with MeasureType set. */
  function RequestParams(measure: string, lastN: string): (p: Params)
    ensures Maps(p, "MeasureType", Some(measure)) && Maps(p, "LastNGames", Some(lastN))
  {
    GetParams("regular", Some(lastN), None).value["MeasureType" := Some(measure)]
  }

  /** One pass of main: a league-dash pass, or a play-type pass; `data` is the response,
      None when fetch_nba_data failed. */
  datatype Job =
    | Regular(measure: string, lastN: string, data: Option<Table>)
    | PlayType(playType: string, data: Option<Table>)

  /** The four league-dash passes (Advanced then Base, each over the last 5 then 10 games)
      followed by the eleven play-type passes. */
  function MainJobs(regular: seq<Option<Table>>, playTypes: seq<Option<Table>>): (jobs: seq<Job>)
    requires |regular| == 4 && |playTypes| == |PlayTypes|
    ensures |jobs| == 15
    ensures forall k :: 4 <= k < 15 ==> jobs[k] == PlayType(PlayTypes[k - 4], playTypes[k - 4])
  {
    [Regular("Advanced", "5", regular[0]), Regular("Advanced", "10", regular[1]),
     Regular("Base", "5", regular[2]), Regular("Base", "10", regular[3])]
    + seq(|PlayTypes|, k requires 0 <= k < |PlayTypes| => PlayType(PlayTypes[k], playTypes[k]))
  }

  function RankColumnsFor(measure: string): seq<string> {
    if measure == "Advanced" then RankColumns else RankColumns2
  }

  /** The pieces one pass contributes: none without data; otherwise filter, rank, and one
      piece per rank column (or field). */
  function JobPieces(job: Job, wolves: seq<string>): Result<seq<seq<SummaryRow>>> {
    if job.data.None? then Ok([])
    else
      match job
      case Regular(measure, lastN, data) =>
        var cols := RankColumnsFor(measure);
        (match Ranked(Filtered(data.value, RegularCriteria(lastN)), cols, [])
         case Err(e) => Err(e)
         case Ok(u) => Pieces(u, RegularSpecs(cols), "Last " + lastN + " " + measure, wolves))
      case PlayType(playType, data) =>
        match Ranked(Filtered(data.value, [("POSS", 20.0)]), [], FieldsToRank)
        case Err(e) => Err(e)
        case Ok(u) => Pieces(u, PlayTypeSpecs(FieldsToRank), "Playtype - " + playType, wolves)
  }

  /** The pieces of all passes, in order, stopping at the first error. */
  function AllPieces(jobs: seq<Job>, wolves: seq<string>): Result<seq<seq<SummaryRow>>> {
    if |jobs| == 0 then Ok([])
    else
      var n := |jobs| - 1;
      match AllPieces(jobs[..n], wolves)
      case Err(e) => Err(e)
      case Ok(ps) =>
        match JobPieces(jobs[n], wolves)
        case Err(e) => Err(e)
        case Ok(qs) => Ok(ps + qs)
  }

  /** `pd.concat(pieces)`. */
  function Flatten(ps: seq<seq<SummaryRow>>): seq<SummaryRow> {
    if |ps| == 0 then [] else Flatten(ps[..|ps| - 1]) + ps[|ps| - 1]
  }

  /** The summary main writes: None when no piece was collected (no sheet is written),
      otherwise the concatenated pieces sorted. */
  function SummaryOf(jobs: seq<Job>, wolves: seq<string>): Result<Option<seq<SummaryRow>>> {
    match AllPieces(jobs, wolves)
    case Err(e) => Err(e)
    case Ok(ps) => if |ps| == 0 then Ok(None) else Ok(Some(SortSummary(Flatten(ps))))
  }

  /** main's accumulation of top_10_ranks_df_pieces over the passes, then the sort. */
  method Summarize(jobs: seq<Job>, wolves: seq<string>) returns (r: Result<Option<seq<SummaryRow>>>)
    ensures r == SummaryOf(jobs, wolves)
  {
    var pieces: seq<seq<SummaryRow>> := [];
    var i := 0;
    while i < |jobs|
      invariant 0 <= i <= |jobs|
      invariant AllPieces(jobs[..i], wolves) == Ok(pieces)
    {
      assert jobs[..i + 1][..i] == jobs[..i];
      var more := JobPieces(jobs[i], wolves);
      if more.Err? {
        AllPiecesStop(jobs, wolves, i + 1);
        return Err(more.error);
      }
      pieces := pieces + more.value;
      i := i + 1;
    }
    assert jobs[..i] == jobs;
    if |pieces| == 0 {
      r := Ok(None);
    } else {
      r := Ok(Some(SortSummary(Flatten(pieces))));
    }
  }

  lemma {:induction false} AllPiecesStop(jobs: seq<Job>, wolves: seq<string>, m: nat)
    requires m <= |jobs| && AllPieces(jobs[..m], wolves).Err?
    ensures AllPieces(jobs, wolves) == AllPieces(jobs[..m], wolves)
    decreases |jobs| - m
  {
    if m < |jobs| {
      assert jobs[..m + 1][..m] == jobs[..m];
      AllPiecesStop(jobs, wolves, m + 1);
    } else {
      assert jobs[..m] == jobs;
    }
  }

  /** A pass with data contributes at least one piece (every rank column list and the
      field list are non-empty), so the summary is absent exactly when no pass had data. */
  lemma {:induction false} NoSummaryIffNoData(jobs: seq<Job>, wolves: seq<string>)
    requires AllPieces(jobs, wolves).Ok?
    ensures SummaryOf(jobs, wolves) == Ok(None) <==> forall k :: 0 <= k < |jobs| ==> jobs[k].data.None?
  {
    if |jobs| > 0 {
      var n := |jobs| - 1;
      assert forall k :: 0 <= k < n ==> jobs[..n][k] == jobs[k];
      NoSummaryIffNoData(jobs[..n], wolves);
      if jobs[n].data.Some? {
        assert |JobPieces(jobs[n], wolves).value| > 0 by {
          JobPiecesNonEmpty(jobs[n], wolves);
        }
      }
    }
  }

  lemma JobPiecesNonEmpty(job: Job, wolves: seq<string>)
    requires job.data.Some? && JobPieces(job, wolves).Ok?
    ensures |JobPieces(job, wolves).value| > 0
  {
    match job
    case Regular(measure, lastN, data) =>
      RegularSpecsNonEmpty(measure);
    case PlayType(_, _) =>
  }

  lemma RegularSpecsNonEmpty(measure: string)
    ensures |RegularSpecs(RankColumnsFor(measure))| > 0
  {
    var cols := RankColumnsFor(measure);
    if measure == "Advanced" {
      assert cols[0] == "GP_RANK";
      HasRankSuffix("GP_RANK", "GP");
    } else {
      assert cols[0] == "FGM_RANK";
      HasRankSuffix("FGM_RANK", "FGM");
    }
    SpecsNonEmpty(cols);
  }

  lemma HasRankSuffix(col: string, stat: string)
    requires col == stat + "_RANK"
    ensures Contains(col, "_RANK")
  {
    assert OccursAt(col, "_RANK", |stat|);
    ContainsIff(col, "_RANK");
  }

  lemma SpecsNonEmpty(cols: seq<string>)
    requires |cols| > 0 && Contains(cols[0], "_RANK")
    ensures |RegularSpecs(cols)| > 0
  {
    assert cols[..1][..0] == [];
    assert |RegularSpecs(cols[..1])| == 1;
    SpecsGrow(cols, 1);
  }

  lemma {:induction false} SpecsGrow(cols: seq<string>, m: nat)
    requires m <= |cols|
    ensures |RegularSpecs(cols[..m])| <= |RegularSpecs(cols)|
    decreases |cols| - m
  {
    if m < |cols| {
      SpecsGrow(cols, m + 1);
      assert cols[..m + 1][..m] == cols[..m];
    } else {
      assert cols[..m] == cols;
    }
  }

  // ---------------------------------------------------------------------------
  // sort_values(by=['PLAYER_NAME', 'Stat', 'Rank', 'Timeframe'])
  // ---------------------------------------------------------------------------

  /** Row `a` sorts before row `b`. */
  predicate SummaryLess(a: SummaryRow, b: SummaryRow) {
    LexLess(a.player, b.player)
    || (a.player == b.player && (LexLess(a.stat, b.stat)
    || (a.stat == b.stat && (a.rank < b.rank
    || (a.rank == b.rank && LexLess(a.timeframe, b.timeframe))))))
  }

  lemma SummaryLessIrreflexive(a: SummaryRow)
    ensures !SummaryLess(a, a)
  {
    LexLessIrreflexive(a.player);
    LexLessIrreflexive(a.stat);
    LexLessIrreflexive(a.timeframe);
  }

  lemma SummaryLessTrans(a: SummaryRow, b: SummaryRow, c: SummaryRow)
    requires SummaryLess(a, b) && SummaryLess(b, c)
    ensures SummaryLess(a, c)
  {
    if LexLess(a.player, b.player) && LexLess(b.player, c.player) {
      LexLessTrans(a.player, b.player, c.player);
    } else if a.player == b.player == c.player {
      if LexLess(a.stat, b.stat) && LexLess(b.stat, c.stat) {
        LexLessTrans(a.stat, b.stat, c.stat);
      } else if a.stat == b.stat == c.stat && a.rank == b.rank == c.rank {
        LexLessTrans(a.timeframe, b.timeframe, c.timeframe);
      }
    }
  }

  predicate SummarySorted(rows: seq<SummaryRow>) {
    forall i, j :: 0 <= i < j < |rows| ==> !SummaryLess(rows[j], rows[i])
  }

  /** Insert `x` before the first row it sorts before (so after every equal row). */
  function InsertSummary(x: SummaryRow, rows: seq<SummaryRow>): (out: seq<SummaryRow>)
    ensures multiset(out) == multiset(rows) + multiset{x}
  {
    if |rows| == 0 then [x]
    else if SummaryLess(x, rows[0]) then [x] + rows
    else
      assert rows == [rows[0]] + rows[1..];
      [rows[0]] + InsertSummary(x, rows[1..])
  }

  lemma {:induction false} InsertSummarySorted(x: SummaryRow, rows: seq<SummaryRow>)
    requires SummarySorted(rows)
    ensures SummarySorted(InsertSummary(x, rows))
  {
    if |rows| == 0 {
    } else if SummaryLess(x, rows[0]) {
      var out := [x] + rows;
      forall i, j | 0 <= i < j < |out|
        ensures !SummaryLess(out[j], out[i])
      {
        if i == 0 {
          if SummaryLess(out[j], x) {
            SummaryLessTrans(out[j], x, rows[0]);
            if j == 1 {
              SummaryLessIrreflexive(rows[0]);
            }
          }
        }
      }
    } else {
      InsertSummarySorted(x, rows[1..]);
      var tail := InsertSummary(x, rows[1..]);
      var out := [rows[0]] + tail;
      forall i, j | 0 <= i < j < |out|
        ensures !SummaryLess(out[j], out[i])
      {
        if i == 0 {
          assert out[j] in multiset(tail);
          assert out[j] == x || out[j] in rows[1..];
        }
      }
    }
  }

  /** The summary rows in (PLAYER_NAME, Stat, Rank, Timeframe) order. */
  function SortSummary(rows: seq<SummaryRow>): (out: seq<SummaryRow>)
    ensures multiset(out) == multiset(rows)
  {
    if |rows| == 0 then []
    else
      var init, last := rows[..|rows| - 1], rows[|rows| - 1];
      assert rows == init + [last];
      InsertSummary(last, SortSummary(init))
  }

  lemma {:induction false} SortSummarySorted(rows: seq<SummaryRow>)
    ensures SummarySorted(SortSummary(rows))
  {
    if |rows| > 0 {
      SortSummarySorted(rows[..|rows| - 1]);
      InsertSummarySorted(rows[|rows| - 1], SortSummary(rows[..|rows| - 1]));
    }
  }

  /** Every summary row names a listed player with a rank of at most 10, and the summary
      is in key order and holds exactly the pieces' rows. */
  lemma SummaryRowsTopTen(jobs: seq<Job>, wolves: seq<string>)
    requires SummaryOf(jobs, wolves).Ok? && SummaryOf(jobs, wolves).value.Some?
    ensures var s := SummaryOf(jobs, wolves).value.value;
      SummarySorted(s) && multiset(s) == multiset(Flatten(AllPieces(jobs, wolves).value))
      && forall e :: e in s ==> e.player in wolves && e.rank <= 10.0
  {
    var ps := AllPieces(jobs, wolves).value;
    SortSummarySorted(Flatten(ps));
    AllPiecesTopTen(jobs, wolves);
    FlattenTopTen(ps, wolves);
    var s := SortSummary(Flatten(ps));
    forall e | e in s
      ensures e.player in wolves && e.rank <= 10.0
    {
      assert e in multiset(Flatten(ps));
    }
  }

  predicate TopTenRows(p: seq<SummaryRow>, wolves: seq<string>) {
    forall e :: e in p ==> e.player in wolves && e.rank <= 10.0
  }

  lemma {:induction false} FlattenTopTen(ps: seq<seq<SummaryRow>>, wolves: seq<string>)
    requires forall k :: 0 <= k < |ps| ==> TopTenRows(ps[k], wolves)
    ensures TopTenRows(Flatten(ps), wolves)
  {
    if |ps| > 0 {
      assert forall k :: 0 <= k < |ps| - 1 ==> ps[..|ps| - 1][k] == ps[k];
      FlattenTopTen(ps[..|ps| - 1], wolves);
    }
  }

  lemma PieceTopTen(t: Table, rankCol: string, stat: string, timeframe: string, wolves: seq<string>)
    requires Piece(t, rankCol, stat, timeframe, wolves).Ok?
    ensures TopTenRows(Piece(t, rankCol, stat, timeframe, wolves).value, wolves)
  {
    PieceRowsExactly(t.rows, rankCol, stat, timeframe, wolves);
  }

  lemma {:induction false} PiecesTopTen(t: Table, specs: seq<(string, string)>, timeframe: string, wolves: seq<string>)
    requires Pieces(t, specs, timeframe, wolves).Ok?
    ensures forall k :: 0 <= k < |specs| ==> TopTenRows(Pieces(t, specs, timeframe, wolves).value[k], wolves)
  {
    if |specs| > 0 {
      var n := |specs| - 1;
      PiecesTopTen(t, specs[..n], timeframe, wolves);
      PieceTopTen(t, specs[n].0, specs[n].1, timeframe, wolves);
    }
  }

  lemma {:induction false} AllPiecesTopTen(jobs: seq<Job>, wolves: seq<string>)
    requires AllPieces(jobs, wolves).Ok?
    ensures forall k :: 0 <= k < |AllPieces(jobs, wolves).value| ==> TopTenRows(AllPieces(jobs, wolves).value[k], wolves)
  {
    if |jobs| > 0 {
      var n := |jobs| - 1;
      AllPiecesTopTen(jobs[..n], wolves);
      var job := jobs[n];
      if job.data.Some? {
        match job
        case Regular(measure, lastN, data) =>
          var u := Ranked(Filtered(data.value, RegularCriteria(lastN)), RankColumnsFor(measure), []).value;
          PiecesTopTen(u, RegularSpecs(RankColumnsFor(measure)), "Last " + lastN + " " + measure, wolves);
        case PlayType(playType, data) =>
          var u := Ranked(Filtered(data.value, [("POSS", 20.0)]), [], FieldsToRank).value;
          PiecesTopTen(u, PlayTypeSpecs(FieldsToRank), "Playtype - " + playType, wolves);
      }
    }
  }

  // ---------------------------------------------------------------------------
  // save_to_excel
  // ---------------------------------------------------------------------------

  /** `to_excel(..., if_sheet_exists='replace')`: an existing sheet is rewritten where it
      stands, a new one is added at the end. */
  function WriteSheet(sheets: seq<string>, name: string): (r: seq<string>)
    ensures name in r
    ensures name in sheets ==> r == sheets
    ensures name !in sheets ==> r == sheets + [name]
  {
    if name in sheets then sheets else sheets + [name]
  }

  /** `[sheet] + sheets[:idx] + sheets[idx+1:]` with idx the first position of the sheet;
      KeyError when the workbook has no such sheet. */
  function MoveToFront(sheets: seq<string>, name: string): (r: Result<seq<string>>)
    ensures r.Err? <==> name !in sheets
    ensures r.Err? ==> r.error == KeyError
    ensures r.Ok? ==> |r.value| == |sheets| && r.value[0] == name
    ensures r.Ok? ==> multiset(r.value) == multiset(sheets)
  {
    match IndexOf(sheets, name)
    case None => Err(KeyError)
    case Some(k) =>
      assert sheets == sheets[..k] + [sheets[k]] + sheets[k + 1..];
      Ok([sheets[k]] + sheets[..k] + sheets[k + 1..])
  }

  /** Removing the moved sheet from the new order gives the old order with that sheet
      removed: every other sheet keeps its relative position. */
  lemma MoveToFrontKeepsOrder(sheets: seq<string>, name: string)
    requires name in sheets
    ensures Remove(MoveToFront(sheets, name).value, name) == Remove(sheets, name)
  {
    var k := IndexOf(sheets, name).value;
    RemoveFirst(sheets, name, k);
  }

  lemma {:induction false} RemoveFirst(xs: seq<string>, x: string, k: nat)
    requires k < |xs| && xs[k] == x && forall j :: 0 <= j < k ==> xs[j] != x
    ensures x in xs && Remove(xs, x) == xs[..k] + xs[k + 1..]
  {
    if k > 0 {
      assert forall j :: 0 <= j < k - 1 ==> xs[1..][j] == xs[j + 1];
      RemoveFirst(xs[1..], x, k - 1);
      assert xs[1..][..k - 1] == xs[1..k];
      assert xs[..k] == [xs[0]] + xs[1..k];
    }
  }

  /** save_to_excel's effect on the sheet order: the sheet is written, then moved first. */
  function SaveToExcel(sheets: seq<string>, name: string): (r: seq<string>)
    ensures |r| > 0 && r[0] == name
    ensures multiset(r) == multiset(WriteSheet(sheets, name))
  {
    MoveToFront(WriteSheet(sheets, name), name).value
  }

  /** After a save the sheet is first, and the other sheets are the old ones in their old
      order. */
  lemma SaveKeepsOthers(sheets: seq<string>, name: string)
    ensures name in SaveToExcel(sheets, name)
    ensures name in sheets ==> Remove(SaveToExcel(sheets, name), name) == Remove(sheets, name)
    ensures name !in sheets ==> Remove(SaveToExcel(sheets, name), name) == sheets
  {
    MoveToFrontKeepsOrder(WriteSheet(sheets, name), name);
    if name !in sheets {
      RemoveFirst(sheets + [name], name, |sheets|);
      assert (sheets + [name])[..|sheets|] == sheets;
    }
  }
}
