/** The recent-form stat cards: the Timberwolves' per-game averages over the full season
    and over the last 5 and 10 games, each written to its own table. */
module RecentStats {
  import opened Wrappers
  import opened Text
  import opened Frames

  /** The columns kept from the league's per-player table. */
  const StatColumns: seq<string> := ["PLAYER_ID", "PLAYER_NAME", "GP", "MIN", "PTS", "REB", "AST",
    "STL", "BLK", "FG_PCT", "FG3_PCT", "FT_PCT", "PLUS_MINUS"]

  /** The shooting percentages shown as text. */
  const PercentColumns: seq<string> := ["FG_PCT", "FG3_PCT", "FT_PCT"]

  /** Games in a regular season. */
  const SeasonGames: int := 82

  /** How a float is rendered as text (`f"{x:.1%}"`, `str(x)`); floating point is not
      part of this model. */
  type Formatter = real -> string

  // ---------------------------------------------------------------------------
  // Labels and cell conversions

  /** The TIMEFRAME label: "Last n games" for a positive n, "Full Season" otherwise. */
  function TimeframeLabel(n: int): (s: string)
    ensures n <= 0 ==> s == "Full Season"
    ensures n > 0 ==> StartsWith(s, "Last ") && EndsWith(s, " games")
  {
    if n > 0 then
      var s := "Last " + IntToString(n) + " games";
      assert s[..5] == "Last " && s[|s| - 6..] == " games";
      s
    else "Full Season"
  }

  /** The number in a "Last n games" label reads back as n, so the three timeframes
      carry three different labels. */
  lemma TimeframeLabelRoundTrip(n: int)
    requires n > 0
    ensures var s := TimeframeLabel(n); |s| >= 11 && ParseInt(s[5..|s| - 6]) == Some(n)
  {
    var s := TimeframeLabel(n);
    var d := IntToString(n);
    assert s == "Last " + d + " games";
    assert s[5..|s| - 6] == d;
    IntStringRoundTrip(n);
  }

  /** `f"{x:.1%}" if pd.notnull(x) else "N/A"`: a missing value reads "N/A", a number is
      formatted, and a text cell makes the format raise ValueError. */
  function PercentText(c: Cell, format: Formatter): (r: Result<Cell>)
    ensures c == Blank ==> r == Ok(TextCell("N/A"))
    ensures r.Err? <==> c.TextCell?
    ensures r.Err? ==> r.error == ValueError
    ensures r.Ok? ==> r.value.TextCell?
  {
    match c
    case Blank => Ok(TextCell("N/A"))
    case IntCell(i) => Ok(TextCell(format(i as real)))
    case NumCell(x) => Ok(TextCell(format(x)))
    case TextCell(_) => Err(ValueError)
  }

  /** `str(x)` for a PLAYER_ID cell (`astype(str)`); a missing value reads "nan". */
  function IdText(c: Cell, floatText: Formatter): string {
    match c
    case IntCell(i) => IntToString(i)
    case NumCell(x) => floatText(x)
    case TextCell(t) => t
    case Blank => "nan"
  }

  /** Python's `int(x)`: text must hold an optionally signed integer, a float is cut
      toward zero, and a missing value (NaN) raises ValueError. */
  function IntOf(c: Cell): (r: Result<int>)
    ensures r.Err? ==> r.error == ValueError
    ensures c.IntCell? ==> r == Ok(c.i)
    ensures c.TextCell? ==> (r.Ok? <==> ParseInt(c.t).Some?)
  {
    match c
    case IntCell(i) => Ok(i)
    case NumCell(x) => Ok(if x >= 0.0 then x.Floor else -((-x).Floor))
    case TextCell(t) => (match ParseInt(t) case Some(v) => Ok(v) case None => Err(ValueError))
    case Blank => Err(ValueError)
  }

  /** An integer PLAYER_ID survives the trip to text and back: `int(str(i)) == i`. */
  lemma PlayerIdRoundTrip(i: int, floatText: Formatter)
    ensures IntOf(TextCell(IdText(IntCell(i), floatText))) == Ok(i)
  {
    var t := IntToString(i);
    assert IdText(IntCell(i), floatText) == t;
    IntStringRoundTrip(i);
    IntOfText(t, i);
  }

  /** Text that parses as an integer converts to that integer. */
  lemma IntOfText(t: string, v: int)
    requires ParseInt(t) == Some(v)
    ensures IntOf(TextCell(t)) == Ok(v)
  {
  }

  // ---------------------------------------------------------------------------
  // get_timberwolves_stats

  /** The percentage cells of column `c`: ValueError as soon as one is text. */
  function PercentCells(f: Frame, c: string, format: Formatter): (r: Result<seq<Cell>>)
    ensures r.Ok? <==> forall i :: 0 <= i < |f.rows| ==> !Get(f.columns, f.rows[i], c).TextCell?
    ensures r.Err? ==> r.error == ValueError
    ensures r.Ok? ==> |r.value| == |f.rows|
    ensures r.Ok? ==> forall i :: 0 <= i < |f.rows| ==> PercentText(Get(f.columns, f.rows[i], c), format) == Ok(r.value[i])
  {
    if forall i :: 0 <= i < |f.rows| ==> !Get(f.columns, f.rows[i], c).TextCell? then
      Ok(seq(|f.rows|, i requires 0 <= i < |f.rows| && !Get(f.columns, f.rows[i], c).TextCell? =>
        PercentText(Get(f.columns, f.rows[i], c), format).value))
    else Err(ValueError)
  }

  lemma PercentColumnsFacts()
    ensures Lists.Distinct(PercentColumns)
    ensures "MIN" !in PercentColumns && "GAMES_REMAINING" !in PercentColumns
    ensures forall c :: c in PercentColumns ==> c in StatColumns
  {
    assert PercentColumns[1..] == ["FG3_PCT", "FT_PCT"] && PercentColumns[1..][1..] == ["FT_PCT"];
  }

  /** The loop over the percentage columns, formatting each in turn. */
  function FormatPercents(f: Frame, cols: seq<string>, format: Formatter): (r: Result<Frame>)
    requires Aligned(f) && Lists.Distinct(cols)
    decreases |cols|
    ensures r.Err? ==> r.error == ValueError
    ensures r.Ok? ==> Aligned(r.value) && |r.value.rows| == |f.rows|
    ensures r.Ok? ==> forall c :: c in r.value.columns <==> c in f.columns || c in cols
    ensures r.Ok? ==> forall i, c :: 0 <= i < |f.rows| && c !in cols ==>
      Get(r.value.columns, r.value.rows[i], c) == Get(f.columns, f.rows[i], c)
    ensures r.Ok? ==> forall i, c :: 0 <= i < |f.rows| && c in cols ==>
      PercentText(Get(f.columns, f.rows[i], c), format) == Ok(Get(r.value.columns, r.value.rows[i], c))
  {
    if |cols| == 0 then Ok(f)
    else
      match PercentCells(f, cols[0], format)
      case Err(e) => Err(e)
      case Ok(cells) =>
        var h := SetColumn(f, cols[0], cells);
        var r := FormatPercents(h, cols[1..], format);
        if r.Ok? then
          assert cols[0] !in cols[1..];
          assert forall c :: c in cols <==> c == cols[0] || c in cols[1..];
          r
        else r
  }

  /** A column holding the same value on every row. */
  function ConstColumn(f: Frame, name: string, v: Cell): (g: Frame)
    requires Aligned(f)
    ensures Aligned(g) && |g.rows| == |f.rows|
    ensures forall c :: c in g.columns <==> c in f.columns || c == name
    ensures forall i :: 0 <= i < |g.rows| ==> Get(g.columns, g.rows[i], name) == v
    ensures forall i, c :: 0 <= i < |g.rows| && c != name ==>
      Get(g.columns, g.rows[i], c) == Get(f.columns, f.rows[i], c)
  {
    SetColumn(f, name, seq(|f.rows|, i => v))
  }

  /** GAMES_REMAINING = 82 minus the team's games so far, only for the full season. */
  function AddRemaining(f: Frame, n: int, teamGames: nat): (g: Frame)
    requires Aligned(f)
    ensures Aligned(g) && |g.rows| == |f.rows|
    ensures forall c :: c in g.columns <==> c in f.columns || (n == 0 && c == "GAMES_REMAINING")
    ensures n == 0 ==> forall i :: 0 <= i < |g.rows| ==>
      Get(g.columns, g.rows[i], "GAMES_REMAINING") == IntCell(SeasonGames - teamGames)
    ensures forall i, c :: 0 <= i < |g.rows| && c != "GAMES_REMAINING" ==>
      Get(g.columns, g.rows[i], c) == Get(f.columns, f.rows[i], c)
  {
    if n == 0 then ConstColumn(f, "GAMES_REMAINING", IntCell(SeasonGames - teamGames)) else f
  }

  /** PLAYER_ID rewritten as text. */
  function IdsAsText(f: Frame, floatText: Formatter): (g: Frame)
    requires Aligned(f)
    ensures Aligned(g) && |g.rows| == |f.rows|
    ensures forall c :: c in g.columns <==> c in f.columns || c == "PLAYER_ID"
    ensures forall i :: 0 <= i < |g.rows| ==>
      Get(g.columns, g.rows[i], "PLAYER_ID") == TextCell(IdText(Get(f.columns, f.rows[i], "PLAYER_ID"), floatText))
    ensures forall i, c :: 0 <= i < |g.rows| && c != "PLAYER_ID" ==>
      Get(g.columns, g.rows[i], c) == Get(f.columns, f.rows[i], c)
  {
    SetColumn(f, "PLAYER_ID", seq(|f.rows|, i requires 0 <= i < |f.rows| =>
      TextCell(IdText(Get(f.columns, f.rows[i], "PLAYER_ID"), floatText))))
  }

  /** The TIMESTAMP and TIMEFRAME columns, then PLAYER_ID as text. */
  function Stamp(p: Frame, n: int, now: string, floatText: Formatter): (g: Frame)
    requires Aligned(p)
    ensures Aligned(g) && |g.rows| == |p.rows|
  {
    IdsAsText(ConstColumn(ConstColumn(p, "TIMESTAMP", TextCell(now)), "TIMEFRAME", TextCell(TimeframeLabel(n))), floatText)
  }

  /** Stamping adds the TIMESTAMP, TIMEFRAME and PLAYER_ID columns and no other. */
  lemma StampColumns(p: Frame, n: int, now: string, floatText: Formatter)
    requires Aligned(p)
    ensures forall c :: c in Stamp(p, n, now, floatText).columns <==>
      c in p.columns || c == "TIMESTAMP" || c == "TIMEFRAME" || c == "PLAYER_ID"
  {
    var stamped := ConstColumn(p, "TIMESTAMP", TextCell(now));
    var labelled := ConstColumn(stamped, "TIMEFRAME", TextCell(TimeframeLabel(n)));
    assert Stamp(p, n, now, floatText) == IdsAsText(labelled, floatText);
  }

  /** Every stamped row carries the run's TIMEFRAME label and timestamp, and PLAYER_ID
      as text. */
  lemma StampRows(p: Frame, n: int, now: string, floatText: Formatter)
    requires Aligned(p)
    ensures var g := Stamp(p, n, now, floatText);
      forall i :: 0 <= i < |g.rows| ==>
        Get(g.columns, g.rows[i], "TIMEFRAME") == TextCell(TimeframeLabel(n)) &&
        Get(g.columns, g.rows[i], "TIMESTAMP") == TextCell(now) &&
        Get(g.columns, g.rows[i], "PLAYER_ID").TextCell?
  {
    var stamped := ConstColumn(p, "TIMESTAMP", TextCell(now));
    var labelled := ConstColumn(stamped, "TIMEFRAME", TextCell(TimeframeLabel(n)));
    var g := IdsAsText(labelled, floatText);
    assert Stamp(p, n, now, floatText) == g;
    forall i | 0 <= i < |g.rows|
      ensures Get(g.columns, g.rows[i], "TIMESTAMP") == TextCell(now)
    {
      assert Get(g.columns, g.rows[i], "TIMESTAMP") == Get(labelled.columns, labelled.rows[i], "TIMESTAMP");
      assert Get(labelled.columns, labelled.rows[i], "TIMESTAMP") == Get(stamped.columns, stamped.rows[i], "TIMESTAMP");
    }
  }

  /** Stamping leaves every other column of every row as it was. */
  lemma StampKeeps(p: Frame, n: int, now: string, floatText: Formatter)
    requires Aligned(p)
    ensures var g := Stamp(p, n, now, floatText);
      forall i, c :: 0 <= i < |g.rows| && c != "TIMESTAMP" && c != "TIMEFRAME" && c != "PLAYER_ID" ==>
        Get(g.columns, g.rows[i], c) == Get(p.columns, p.rows[i], c)
  {
    var stamped := ConstColumn(p, "TIMESTAMP", TextCell(now));
    var labelled := ConstColumn(stamped, "TIMEFRAME", TextCell(TimeframeLabel(n)));
    var g := IdsAsText(labelled, floatText);
    assert Stamp(p, n, now, floatText) == g;
    forall i, c | 0 <= i < |g.rows| && c != "TIMESTAMP" && c != "TIMEFRAME" && c != "PLAYER_ID"
      ensures Get(g.columns, g.rows[i], c) == Get(p.columns, p.rows[i], c)
    {
      assert Get(g.columns, g.rows[i], c) == Get(labelled.columns, labelled.rows[i], c);
      assert Get(labelled.columns, labelled.rows[i], c) == Get(stamped.columns, stamped.rows[i], c);
    }
  }

  /** The steps of `get_timberwolves_stats` after the column selection: the sort by MIN,
      GAMES_REMAINING for the full season, the percentage text, the TIMESTAMP and
      TIMEFRAME columns, and PLAYER_ID as text. */
  function Decorate(sel: Frame, n: int, teamGames: nat, now: string, format: Formatter, floatText: Formatter): (r: Result<Frame>)
    requires Aligned(sel)
    ensures r.Err? ==> r.error == ValueError
    ensures r.Ok? ==> Aligned(r.value) && |r.value.rows| == |sel.rows|
    ensures r.Ok? ==> forall c :: c in r.value.columns <==>
      c in sel.columns || c in PercentColumns || c == "TIMESTAMP" || c == "TIMEFRAME" || c == "PLAYER_ID" ||
      (n == 0 && c == "GAMES_REMAINING")
  {
    SortDescAligned(sel, "MIN");
    PercentColumnsFacts();
    match FormatPercents(AddRemaining(SortDesc(sel, "MIN"), n, teamGames), PercentColumns, format)
    case Err(e) => Err(e)
    case Ok(p) =>
      StampColumns(p, n, now, floatText);
      Ok(Stamp(p, n, now, floatText))
  }

  /** `get_timberwolves_stats(n)` on the fetched per-player table `df` and the number
      of team game-log rows: KeyError when a listed column is missing, ValueError when a
      percentage is text; otherwise one row per player with the listed columns, the
      added ones, and GAMES_REMAINING only for the full season. */
  function GetTimberwolvesStats(df: Frame, n: int, teamGames: nat, now: string, format: Formatter, floatText: Formatter): (r: Result<Frame>)
    ensures (exists c :: c in StatColumns && c !in df.columns) ==> r == Err(KeyError)
    ensures r.Err? ==> r.error == KeyError || r.error == ValueError
    ensures r.Ok? ==> Aligned(r.value) && |r.value.rows| == |df.rows|
    ensures r.Ok? ==> forall c :: c in r.value.columns <==>
      c in StatColumns || c == "TIMESTAMP" || c == "TIMEFRAME" || (n == 0 && c == "GAMES_REMAINING")
  {
    match Select(df, StatColumns)
    case Err(e) => Err(e)
    case Ok(sel) =>
      PercentColumnsFacts();
      Decorate(sel, n, teamGames, now, format, floatText)
  }

  /** Every row of the result carries the run's TIMEFRAME label and timestamp, PLAYER_ID
      as text, and, for the full season, 82 minus the team's games so far. */
  lemma DecorateRows(sel: Frame, n: int, teamGames: nat, now: string, format: Formatter, floatText: Formatter)
    requires Aligned(sel) && Decorate(sel, n, teamGames, now, format, floatText).Ok?
    ensures var g := Decorate(sel, n, teamGames, now, format, floatText).value;
      forall i :: 0 <= i < |g.rows| ==>
        Get(g.columns, g.rows[i], "TIMEFRAME") == TextCell(TimeframeLabel(n)) &&
        Get(g.columns, g.rows[i], "TIMESTAMP") == TextCell(now) &&
        Get(g.columns, g.rows[i], "PLAYER_ID").TextCell? &&
        (n == 0 ==> Get(g.columns, g.rows[i], "GAMES_REMAINING") == IntCell(SeasonGames - teamGames))
  {
    DecorateStamped(sel, n, teamGames, now, format, floatText);
    if n == 0 {
      DecorateRemaining(sel, teamGames, now, format, floatText);
    }
  }

  lemma DecorateStamped(sel: Frame, n: int, teamGames: nat, now: string, format: Formatter, floatText: Formatter)
    requires Aligned(sel) && Decorate(sel, n, teamGames, now, format, floatText).Ok?
    ensures var g := Decorate(sel, n, teamGames, now, format, floatText).value;
      forall i :: 0 <= i < |g.rows| ==>
        Get(g.columns, g.rows[i], "TIMEFRAME") == TextCell(TimeframeLabel(n)) &&
        Get(g.columns, g.rows[i], "TIMESTAMP") == TextCell(now) &&
        Get(g.columns, g.rows[i], "PLAYER_ID").TextCell?
  {
    SortDescAligned(sel, "MIN");
    PercentColumnsFacts();
    var w := AddRemaining(SortDesc(sel, "MIN"), n, teamGames);
    var p := FormatPercents(w, PercentColumns, format).value;
    assert Decorate(sel, n, teamGames, now, format, floatText).value == Stamp(p, n, now, floatText);
    StampRows(p, n, now, floatText);
  }

  lemma DecorateRemaining(sel: Frame, teamGames: nat, now: string, format: Formatter, floatText: Formatter)
    requires Aligned(sel) && Decorate(sel, 0, teamGames, now, format, floatText).Ok?
    ensures var g := Decorate(sel, 0, teamGames, now, format, floatText).value;
      forall i :: 0 <= i < |g.rows| ==>
        Get(g.columns, g.rows[i], "GAMES_REMAINING") == IntCell(SeasonGames - teamGames)
  {
    SortDescAligned(sel, "MIN");
    PercentColumnsFacts();
    var w := AddRemaining(SortDesc(sel, "MIN"), 0, teamGames);
    var p := FormatPercents(w, PercentColumns, format).value;
    assert Decorate(sel, 0, teamGames, now, format, floatText).value == Stamp(p, 0, now, floatText);
    ColumnSurvivesPercents(w, format, "GAMES_REMAINING", IntCell(SeasonGames - teamGames));
    ColumnSurvivesStamp(p, 0, now, floatText, "GAMES_REMAINING", IntCell(SeasonGames - teamGames));
  }

  /** A column that is not a percentage column keeps its cells through the formatting. */
  lemma ColumnSurvivesPercents(w: Frame, format: Formatter, c: string, v: Cell)
    requires Aligned(w) && Lists.Distinct(PercentColumns) && c !in PercentColumns
    requires FormatPercents(w, PercentColumns, format).Ok?
    requires forall i :: 0 <= i < |w.rows| ==> Get(w.columns, w.rows[i], c) == v
    ensures var p := FormatPercents(w, PercentColumns, format).value;
      forall i :: 0 <= i < |p.rows| ==> Get(p.columns, p.rows[i], c) == v
  {
    ColumnSurvivesFormat(w, PercentColumns, format, c, v);
  }

  /** `ColumnSurvivesPercents` for any list of columns to format. */
  lemma ColumnSurvivesFormat(w: Frame, cols: seq<string>, format: Formatter, c: string, v: Cell)
    requires Aligned(w) && Lists.Distinct(cols) && c !in cols
    requires FormatPercents(w, cols, format).Ok?
    requires forall i :: 0 <= i < |w.rows| ==> Get(w.columns, w.rows[i], c) == v
    ensures var p := FormatPercents(w, cols, format).value;
      forall i :: 0 <= i < |p.rows| ==> Get(p.columns, p.rows[i], c) == v
  {
    var p := FormatPercents(w, cols, format).value;
    forall i | 0 <= i < |p.rows|
      ensures Get(p.columns, p.rows[i], c) == v
    {
      assert Get(p.columns, p.rows[i], c) == Get(w.columns, w.rows[i], c);
    }
  }

  /** A column other than the three stamped ones keeps its cells through the stamping. */
  lemma ColumnSurvivesStamp(p: Frame, n: int, now: string, floatText: Formatter, c: string, v: Cell)
    requires Aligned(p) && c != "TIMESTAMP" && c != "TIMEFRAME" && c != "PLAYER_ID"
    requires forall i :: 0 <= i < |p.rows| ==> Get(p.columns, p.rows[i], c) == v
    ensures var g := Stamp(p, n, now, floatText);
      forall i :: 0 <= i < |g.rows| ==> Get(g.columns, g.rows[i], c) == v
  {
    StampKeeps(p, n, now, floatText);
  }

  /** The rows of the result are sorted by MIN, largest first. */
  lemma DecorateSorted(sel: Frame, n: int, teamGames: nat, now: string, format: Formatter, floatText: Formatter)
    requires Aligned(sel) && Decorate(sel, n, teamGames, now, format, floatText).Ok?
    ensures var g := Decorate(sel, n, teamGames, now, format, floatText).value;
      SortedDesc(g.columns, g.rows, "MIN")
  {
    SortDescAligned(sel, "MIN");
    PercentColumnsFacts();
    var sorted := SortDesc(sel, "MIN");
    var w := AddRemaining(sorted, n, teamGames);
    var p := FormatPercents(w, PercentColumns, format).value;
    var g := Stamp(p, n, now, floatText);
    assert Decorate(sel, n, teamGames, now, format, floatText).value == g;
    assert Stages(sorted, w, p, g, n, teamGames, now, format, floatText);
    StagesSorted(sorted, w, p, g, n, teamGames, now, format, floatText);
  }

  lemma StagesSorted(sorted: Frame, w: Frame, p: Frame, g: Frame, n: int, teamGames: nat, now: string,
                     format: Formatter, floatText: Formatter)
    requires Stages(sorted, w, p, g, n, teamGames, now, format, floatText)
    requires SortedDesc(sorted.columns, sorted.rows, "MIN")
    ensures SortedDesc(g.columns, g.rows, "MIN")
  {
    PercentColumnsFacts();
    StatColumnsFacts();
    assert |g.rows| == |sorted.rows|;
    forall i | 0 <= i < |g.rows|
      ensures Get(g.columns, g.rows[i], "MIN") == Get(sorted.columns, sorted.rows[i], "MIN")
    {
      DecorateCellOther(sorted, w, p, g, n, teamGames, now, format, floatText, i, "MIN");
    }
    SortedTransfer(sorted, g, "MIN");
  }

  /** What every row of a successful `get_timberwolves_stats(n)` holds, and its order. */
  lemma GetTimberwolvesStatsRows(df: Frame, n: int, teamGames: nat, now: string, format: Formatter, floatText: Formatter)
    requires GetTimberwolvesStats(df, n, teamGames, now, format, floatText).Ok?
    ensures var g := GetTimberwolvesStats(df, n, teamGames, now, format, floatText).value;
      forall i :: 0 <= i < |g.rows| ==>
        Get(g.columns, g.rows[i], "TIMEFRAME") == TextCell(TimeframeLabel(n)) &&
        Get(g.columns, g.rows[i], "TIMESTAMP") == TextCell(now) &&
        Get(g.columns, g.rows[i], "PLAYER_ID").TextCell? &&
        (n == 0 ==> Get(g.columns, g.rows[i], "GAMES_REMAINING") == IntCell(SeasonGames - teamGames))
    ensures var g := GetTimberwolvesStats(df, n, teamGames, now, format, floatText).value;
      SortedDesc(g.columns, g.rows, "MIN")
  {
    var sel := Select(df, StatColumns).value;
    DecorateRows(sel, n, teamGames, now, format, floatText);
    DecorateSorted(sel, n, teamGames, now, format, floatText);
  }

  /** How a cell of column `c` is shown in the result: a percentage as its text (or
      "N/A"), PLAYER_ID as text, any other cell as it was. */
  function Shown(c: string, x: Cell, format: Formatter, floatText: Formatter): Cell {
    if c in PercentColumns then (match PercentText(x, format) case Ok(v) => v case Err(_) => x)
    else if c == "PLAYER_ID" then TextCell(IdText(x, floatText))
    else x
  }

  /** A row read on the listed columns. */
  function PlainRow(columns: seq<string>, row: seq<Cell>): seq<Cell> {
    seq(|StatColumns|, k requires 0 <= k < |StatColumns| => Get(columns, row, StatColumns[k]))
  }

  /** A row read on the listed columns, each cell as the result shows it. */
  function ShownRow(columns: seq<string>, row: seq<Cell>, format: Formatter, floatText: Formatter): seq<Cell> {
    seq(|StatColumns|, k requires 0 <= k < |StatColumns| =>
      Shown(StatColumns[k], Get(columns, row, StatColumns[k]), format, floatText))
  }

  function PlainRows(columns: seq<string>, rows: seq<seq<Cell>>): (p: seq<seq<Cell>>)
    ensures |p| == |rows| && forall i :: 0 <= i < |rows| ==> p[i] == PlainRow(columns, rows[i])
  {
    seq(|rows|, i requires 0 <= i < |rows| => PlainRow(columns, rows[i]))
  }

  function ShownRows(columns: seq<string>, rows: seq<seq<Cell>>, format: Formatter, floatText: Formatter): (p: seq<seq<Cell>>)
    ensures |p| == |rows| && forall i :: 0 <= i < |rows| ==> p[i] == ShownRow(columns, rows[i], format, floatText)
  {
    seq(|rows|, i requires 0 <= i < |rows| => ShownRow(columns, rows[i], format, floatText))
  }

  lemma ShownRowsConcat(columns: seq<string>, u: seq<seq<Cell>>, v: seq<seq<Cell>>, format: Formatter, floatText: Formatter)
    ensures ShownRows(columns, u + v, format, floatText) == ShownRows(columns, u, format, floatText) + ShownRows(columns, v, format, floatText)
  {
    var l := ShownRows(columns, u + v, format, floatText);
    var r := ShownRows(columns, u, format, floatText) + ShownRows(columns, v, format, floatText);
    forall i | 0 <= i < |l| ensures l[i] == r[i] {
      if i < |u| { assert (u + v)[i] == u[i]; } else { assert (u + v)[i] == v[i - |u|]; }
    }
  }

  /** Reordering the rows reorders what they show. */
  lemma {:induction false} ShownRowsPermutation(columns: seq<string>, a: seq<seq<Cell>>, b: seq<seq<Cell>>, format: Formatter, floatText: Formatter)
    requires multiset(a) == multiset(b)
    ensures multiset(ShownRows(columns, a, format, floatText)) == multiset(ShownRows(columns, b, format, floatText))
    decreases |a|
  {
    if |a| == 0 {
      assert |multiset(b)| == 0;
    } else {
      var x := a[0];
      assert x in multiset(b);
      var j :| 0 <= j < |b| && b[j] == x;
      var rest := b[..j] + b[j + 1..];
      assert b == b[..j] + [x] + b[j + 1..];
      assert a == [x] + a[1..];
      assert multiset(rest) == multiset(b) - multiset{x};
      assert multiset(a[1..]) == multiset(a) - multiset{x};
      ShownRowsPermutation(columns, a[1..], rest, format, floatText);
      ShownRowsConcat(columns, [x], a[1..], format, floatText);
      ShownRowsConcat(columns, b[..j], b[j + 1..], format, floatText);
      ShownRowsConcat(columns, b[..j] + [x], b[j + 1..], format, floatText);
      ShownRowsConcat(columns, b[..j], [x], format, floatText);
    }
  }

  lemma StatColumnsFacts()
    ensures "GAMES_REMAINING" !in StatColumns && "TIMESTAMP" !in StatColumns && "TIMEFRAME" !in StatColumns
    ensures "PLAYER_ID" !in PercentColumns
  {
  }

  /** The selection shows the same rows as the fetched table. */
  lemma SelectShown(df: Frame, sel: Frame, format: Formatter, floatText: Formatter)
    requires Select(df, StatColumns) == Ok(sel)
    ensures ShownRows(sel.columns, sel.rows, format, floatText) == ShownRows(df.columns, df.rows, format, floatText)
  {
    forall i | 0 <= i < |df.rows|
      ensures ShownRow(sel.columns, sel.rows[i], format, floatText) == ShownRow(df.columns, df.rows[i], format, floatText)
    {
      SelectRowShown(df, sel, format, floatText, i);
    }
  }

  lemma SelectRowShown(df: Frame, sel: Frame, format: Formatter, floatText: Formatter, i: nat)
    requires Select(df, StatColumns) == Ok(sel) && i < |df.rows|
    ensures ShownRow(sel.columns, sel.rows[i], format, floatText) == ShownRow(df.columns, df.rows[i], format, floatText)
  {
    forall k | 0 <= k < |StatColumns|
      ensures Get(sel.columns, sel.rows[i], StatColumns[k]) == Get(df.columns, df.rows[i], StatColumns[k])
    {
      SelectGet(df, StatColumns, sel, i, StatColumns[k]);
    }
  }

  /** Stamping writes each PLAYER_ID as text. */
  lemma StampId(p: Frame, n: int, now: string, floatText: Formatter, i: nat)
    requires Aligned(p) && i < |p.rows|
    ensures var g := Stamp(p, n, now, floatText);
      Get(g.columns, g.rows[i], "PLAYER_ID") == TextCell(IdText(Get(p.columns, p.rows[i], "PLAYER_ID"), floatText))
  {
    var stamped := ConstColumn(p, "TIMESTAMP", TextCell(now));
    var labelled := ConstColumn(stamped, "TIMEFRAME", TextCell(TimeframeLabel(n)));
    assert Stamp(p, n, now, floatText) == IdsAsText(labelled, floatText);
    assert Get(labelled.columns, labelled.rows[i], "PLAYER_ID") == Get(stamped.columns, stamped.rows[i], "PLAYER_ID");
  }

  /** The frames `get_timberwolves_stats` passes through after the sort: GAMES_REMAINING
      added, the percentages formatted, then the stamps. */
  predicate Stages(sorted: Frame, w: Frame, p: Frame, g: Frame, n: int, teamGames: nat, now: string,
                   format: Formatter, floatText: Formatter) {
    Aligned(sorted) && w == AddRemaining(sorted, n, teamGames)
    && Lists.Distinct(PercentColumns) && FormatPercents(w, PercentColumns, format) == Ok(p)
    && g == Stamp(p, n, now, floatText)
  }

  /** One listed cell of the result is the sorted row's cell as the result shows it. */
  lemma DecorateCell(sorted: Frame, w: Frame, p: Frame, g: Frame, n: int, teamGames: nat, now: string,
                     format: Formatter, floatText: Formatter, i: nat, c: string)
    requires Stages(sorted, w, p, g, n, teamGames, now, format, floatText)
    requires i < |sorted.rows| && c != "GAMES_REMAINING" && c != "TIMESTAMP" && c != "TIMEFRAME"
    requires "PLAYER_ID" !in PercentColumns
    ensures i < |g.rows| && Get(g.columns, g.rows[i], c) == Shown(c, Get(sorted.columns, sorted.rows[i], c), format, floatText)
  {
    if c == "PLAYER_ID" {
      DecorateCellId(sorted, w, p, g, n, teamGames, now, format, floatText, i);
    } else if c in PercentColumns {
      DecorateCellPercent(sorted, w, p, g, n, teamGames, now, format, floatText, i, c);
    } else {
      DecorateCellOther(sorted, w, p, g, n, teamGames, now, format, floatText, i, c);
    }
  }

  lemma DecorateCellId(sorted: Frame, w: Frame, p: Frame, g: Frame, n: int, teamGames: nat, now: string,
                       format: Formatter, floatText: Formatter, i: nat)
    requires Stages(sorted, w, p, g, n, teamGames, now, format, floatText)
    requires i < |sorted.rows| && "PLAYER_ID" !in PercentColumns
    ensures i < |g.rows| && Get(g.columns, g.rows[i], "PLAYER_ID") == TextCell(IdText(Get(sorted.columns, sorted.rows[i], "PLAYER_ID"), floatText))
  {
    assert Get(w.columns, w.rows[i], "PLAYER_ID") == Get(sorted.columns, sorted.rows[i], "PLAYER_ID");
    assert Get(p.columns, p.rows[i], "PLAYER_ID") == Get(w.columns, w.rows[i], "PLAYER_ID");
    StampId(p, n, now, floatText, i);
  }

  lemma DecorateCellPercent(sorted: Frame, w: Frame, p: Frame, g: Frame, n: int, teamGames: nat, now: string,
                            format: Formatter, floatText: Formatter, i: nat, c: string)
    requires Stages(sorted, w, p, g, n, teamGames, now, format, floatText)
    requires i < |sorted.rows| && c in PercentColumns && c != "GAMES_REMAINING" && c != "TIMESTAMP" && c != "TIMEFRAME" && c != "PLAYER_ID"
    ensures i < |g.rows| && PercentText(Get(sorted.columns, sorted.rows[i], c), format) == Ok(Get(g.columns, g.rows[i], c))
  {
    assert Get(w.columns, w.rows[i], c) == Get(sorted.columns, sorted.rows[i], c);
    assert PercentText(Get(w.columns, w.rows[i], c), format) == Ok(Get(p.columns, p.rows[i], c));
    StampKeeps(p, n, now, floatText);
  }

  lemma DecorateCellOther(sorted: Frame, w: Frame, p: Frame, g: Frame, n: int, teamGames: nat, now: string,
                          format: Formatter, floatText: Formatter, i: nat, c: string)
    requires Stages(sorted, w, p, g, n, teamGames, now, format, floatText)
    requires i < |sorted.rows| && c !in PercentColumns && c != "GAMES_REMAINING" && c != "TIMESTAMP" && c != "TIMEFRAME" && c != "PLAYER_ID"
    ensures i < |g.rows| && Get(g.columns, g.rows[i], c) == Get(sorted.columns, sorted.rows[i], c)
  {
    assert Get(w.columns, w.rows[i], c) == Get(sorted.columns, sorted.rows[i], c);
    assert Get(p.columns, p.rows[i], c) == Get(w.columns, w.rows[i], c);
    StampKeeps(p, n, now, floatText);
  }

  /** The result's rows, read on the listed columns, are the sorted rows as shown. */
  lemma DecorateShown(sel: Frame, n: int, teamGames: nat, now: string, format: Formatter, floatText: Formatter)
    requires Aligned(sel) && Decorate(sel, n, teamGames, now, format, floatText).Ok?
    ensures var g := Decorate(sel, n, teamGames, now, format, floatText).value;
      var sorted := SortDesc(sel, "MIN");
      PlainRows(g.columns, g.rows) == ShownRows(sorted.columns, sorted.rows, format, floatText)
  {
    SortDescAligned(sel, "MIN");
    PercentColumnsFacts();
    var sorted := SortDesc(sel, "MIN");
    var w := AddRemaining(sorted, n, teamGames);
    var p := FormatPercents(w, PercentColumns, format).value;
    var g := Stamp(p, n, now, floatText);
    assert Decorate(sel, n, teamGames, now, format, floatText).value == g;
    assert Stages(sorted, w, p, g, n, teamGames, now, format, floatText);
    StampedRowsShown(sorted, w, p, g, n, teamGames, now, format, floatText);
  }

  lemma StampedRowsShown(sorted: Frame, w: Frame, p: Frame, g: Frame, n: int, teamGames: nat, now: string,
                         format: Formatter, floatText: Formatter)
    requires Stages(sorted, w, p, g, n, teamGames, now, format, floatText)
    ensures PlainRows(g.columns, g.rows) == ShownRows(sorted.columns, sorted.rows, format, floatText)
  {
    AllCellsShown(sorted, w, p, g, n, teamGames, now, format, floatText);
    RowsShownFromCells(g, sorted, format, floatText);
  }

  /** Cell `c` of row `i` of `g` is that of `sorted` as the result shows it. */
  predicate CellShown(g: Frame, sorted: Frame, i: nat, c: string, format: Formatter, floatText: Formatter) {
    i < |g.rows| && i < |sorted.rows|
    && Get(g.columns, g.rows[i], c) == Shown(c, Get(sorted.columns, sorted.rows[i], c), format, floatText)
  }

  lemma AllCellsShown(sorted: Frame, w: Frame, p: Frame, g: Frame, n: int, teamGames: nat, now: string,
                      format: Formatter, floatText: Formatter)
    requires Stages(sorted, w, p, g, n, teamGames, now, format, floatText)
    ensures |g.rows| == |sorted.rows|
    ensures forall i, c :: 0 <= i < |g.rows| && c in StatColumns ==> CellShown(g, sorted, i, c, format, floatText)
  {
    StatColumnsFacts();
    forall i, c | 0 <= i < |g.rows| && c in StatColumns
      ensures CellShown(g, sorted, i, c, format, floatText)
    {
      DecorateCell(sorted, w, p, g, n, teamGames, now, format, floatText, i, c);
    }
  }

  lemma RowsShownFromCells(g: Frame, sorted: Frame, format: Formatter, floatText: Formatter)
    requires |g.rows| == |sorted.rows|
    requires forall i, c :: 0 <= i < |g.rows| && c in StatColumns ==> CellShown(g, sorted, i, c, format, floatText)
    ensures PlainRows(g.columns, g.rows) == ShownRows(sorted.columns, sorted.rows, format, floatText)
  {
    forall i | 0 <= i < |g.rows|
      ensures PlainRow(g.columns, g.rows[i]) == ShownRow(sorted.columns, sorted.rows[i], format, floatText)
    {
      var plain := PlainRow(g.columns, g.rows[i]);
      var shown := ShownRow(sorted.columns, sorted.rows[i], format, floatText);
      forall k | 0 <= k < |StatColumns|
        ensures plain[k] == shown[k]
      {
        assert CellShown(g, sorted, i, StatColumns[k], format, floatText);
      }
    }
  }

  /** A successful `get_timberwolves_stats(n)` holds the fetched rows in some order, each
      read on the listed columns with its percentages and PLAYER_ID as text and every other
      listed cell as fetched. */
  lemma GetTimberwolvesStatsShown(df: Frame, n: int, teamGames: nat, now: string, format: Formatter, floatText: Formatter)
    requires GetTimberwolvesStats(df, n, teamGames, now, format, floatText).Ok?
    ensures var g := GetTimberwolvesStats(df, n, teamGames, now, format, floatText).value;
      multiset(PlainRows(g.columns, g.rows)) == multiset(ShownRows(df.columns, df.rows, format, floatText))
  {
    var sel := Select(df, StatColumns).value;
    var sorted := SortDesc(sel, "MIN");
    DecorateShown(sel, n, teamGames, now, format, floatText);
    ShownRowsPermutation(sorted.columns, sorted.rows, sel.rows, format, floatText);
    SelectShown(df, sel, format, floatText);
  }

  /** Sortedness by one column carries over to a frame whose rows hold the same cells in
      that column. */
  lemma SortedTransfer(f: Frame, g: Frame, c: string)
    requires SortedDesc(f.columns, f.rows, c) && |g.rows| == |f.rows|
    requires forall i :: 0 <= i < |g.rows| ==> Get(g.columns, g.rows[i], c) == Get(f.columns, f.rows[i], c)
    ensures SortedDesc(g.columns, g.rows, c)
  {
  }

  // ---------------------------------------------------------------------------
  // save_to_supabase

  /** `df.to_dict('records')`. */
  function ToRecords(f: Frame): (rs: seq<Record>)
    ensures |rs| == |f.rows|
    ensures forall i, c :: 0 <= i < |f.rows| && c in f.columns ==> c in rs[i] && rs[i][c] == Get(f.columns, f.rows[i], c)
  {
    seq(|f.rows|, i requires 0 <= i < |f.rows| => map c | c in f.columns :: Get(f.columns, f.rows[i], c))
  }

  /** Every record has a PLAYER_ID that `int()` accepts. */
  predicate IdsConvertible(rs: seq<Record>) {
    forall k :: 0 <= k < |rs| ==> "PLAYER_ID" in rs[k] && IntOf(rs[k]["PLAYER_ID"]).Ok?
  }

  /** The records with PLAYER_ID converted by `int()`. */
  function ConvertedIds(rs: seq<Record>): (out: seq<Record>)
    requires IdsConvertible(rs)
    ensures |out| == |rs|
  {
    seq(|rs|, k requires 0 <= k < |rs| && IdsConvertible(rs) =>
      rs[k]["PLAYER_ID" := IntCell(IntOf(rs[k]["PLAYER_ID"]).value)])
  }

  /** `for record in records: record['PLAYER_ID'] = int(record['PLAYER_ID'])`, in place:
      KeyError or ValueError at the first record without a usable PLAYER_ID; otherwise
      every record holds the integer and nothing else changes. */
  method ConvertPlayerIds(records: seq<Record>) returns (r: Result<seq<Record>>)
    ensures r.Ok? <==> IdsConvertible(records)
    ensures r.Ok? ==> r.value == ConvertedIds(records)
    ensures r.Err? ==> r.error == KeyError || r.error == ValueError
  {
    var rs := records;
    var k := 0;
    while k < |rs|
      invariant 0 <= k <= |rs| == |records|
      invariant IdsConvertible(records[..k])
      invariant rs[..k] == ConvertedIds(records[..k]) && rs[k..] == records[k..]
    {
      if "PLAYER_ID" !in rs[k] {
        assert rs[k] == records[k];
        return Err(KeyError);
      }
      match IntOf(rs[k]["PLAYER_ID"])
      case Err(e) =>
        assert rs[k] == records[k];
        return Err(e);
      case Ok(v) =>
        assert rs[k] == records[k];
        assert records[..k + 1][..k] == records[..k];
        rs := rs[k := rs[k]["PLAYER_ID" := IntCell(v)]];
        k := k + 1;
        assert rs[..k] == ConvertedIds(records[..k]);
    }
    assert records[..k] == records && rs[..k] == rs;
    r := Ok(rs);
  }

  /** What the database does with one table's delete-then-insert: the delete fails, the
      insert fails after the delete went through, or both go through. */
  datatype DbOutcome = DeleteFails | InsertFails | Stored

  /** `.delete().neq('PLAYER_ID', 0)` removes the rows whose PLAYER_ID is a number other
      than 0; a row with PLAYER_ID 0 or none survives. */
  predicate Deleted(row: Record) {
    "PLAYER_ID" in row && NumKey(row["PLAYER_ID"]).Some? && NumKey(row["PLAYER_ID"]).value != 0.0
  }

  function Survivors(rows: seq<Record>): (out: seq<Record>)
    ensures forall x :: x in out <==> x in rows && !Deleted(x)
  {
    if |rows| == 0 then []
    else
      var n := |rows| - 1;
      var rest := Survivors(rows[..n]);
      assert forall x :: x in rows <==> x in rows[..n] || x == rows[n];
      rest + (if Deleted(rows[n]) then [] else [rows[n]])
  }

  /** The delete keeps the table's order and repetitions: two stretches of records are
      filtered separately, and one record survives exactly when it is not deleted. */
  lemma {:induction false} SurvivorsAppend(a: seq<Record>, b: seq<Record>)
    ensures Survivors(a + b) == Survivors(a) + Survivors(b)
    ensures |b| == 1 ==> Survivors(b) == (if Deleted(b[0]) then [] else b)
    decreases |b|
  {
    assert |b| == 1 ==> Survivors(b) == (if Deleted(b[0]) then [] else b) by {
      if |b| == 1 {
        assert b[..0] == [];
      }
    }
    if |b| == 0 {
      assert a + b == a;
    } else {
      var n := |b| - 1;
      var last := if Deleted(b[n]) then [] else [b[n]];
      assert Survivors(a + b) == Survivors(a + b[..n]) + last by {
        assert (a + b)[..|a + b| - 1] == a + b[..n];
        assert (a + b)[|a + b| - 1] == b[n];
      }
      SurvivorsAppend(a, b[..n]);
      Lists.Regroup(Survivors(a), Survivors(b[..n]), last);
    }
  }

  /** The three timeframes: how many games, the label in messages, the table. */
  datatype Timeframe = Timeframe(games: int, name: string, table: string)

  const Timeframes: seq<Timeframe> := [
    Timeframe(0, "season", "timberwolves_player_stats_season"),
    Timeframe(5, "last_5", "timberwolves_player_stats_last_5"),
    Timeframe(10, "last_10", "timberwolves_player_stats_last_10")]

  /** What the per-timeframe fetches returned, and how the database answered. */
  datatype Fetched = Fetched(players: Frame, db: DbOutcome)

  /** The run-wide inputs: the team's game-log length, the clock, and the renderers. */
  datatype Context = Context(teamGames: nat, now: string, format: Formatter, floatText: Formatter)

  /** One pass of the loop body on the current table: any exception before the delete
      leaves it alone, a failed insert leaves only the survivors of the delete, and a
      full success leaves the survivors followed by the new records. */
  function SaveOne(table: seq<Record>, games: int, input: Fetched, ctx: Context): (r: (seq<Record>, bool))
    ensures !r.1 ==> r.0 == table || r.0 == Survivors(table)
  {
    match GetTimberwolvesStats(input.players, games, ctx.teamGames, ctx.now, ctx.format, ctx.floatText)
    case Err(_) => (table, false)
    case Ok(df) =>
      var records := ToRecords(df);
      if !IdsConvertible(records) then (table, false)
      else
        SaveConverted(table, input.db, ConvertedIds(records))
  }

  /** The delete, then the insert of the converted records. */
  function SaveConverted(table: seq<Record>, db: DbOutcome, records: seq<Record>): (r: (seq<Record>, bool))
    ensures r.1 <==> db == Stored
    ensures r.1 ==> r.0 == Survivors(table) + records
  {
    match db
    case DeleteFails => (table, false)
    case InsertFails => (Survivors(table), false)
    case Stored => (Survivors(table) + records, true)
  }

  /** The tables after the first `k` timeframes. A table missing from the database
      makes its timeframe fail without effect. */
  function SavedTables(tables: map<string, seq<Record>>, inputs: seq<Fetched>, ctx: Context, k: nat): (out: map<string, seq<Record>>)
    requires k <= |inputs| == |Timeframes|
    ensures out.Keys == tables.Keys
  {
    if k == 0 then tables
    else
      var before := SavedTables(tables, inputs, ctx, k - 1);
      var t := Timeframes[k - 1];
      if t.table in before then before[t.table := SaveOne(before[t.table], t.games, inputs[k - 1], ctx).0]
      else before
  }

  /** Whether timeframe `k` was saved. */
  function Saved(tables: map<string, seq<Record>>, inputs: seq<Fetched>, ctx: Context, k: nat): bool
    requires k < |inputs| == |Timeframes|
  {
    var before := SavedTables(tables, inputs, ctx, k);
    var t := Timeframes[k];
    t.table in before && SaveOne(before[t.table], t.games, inputs[k], ctx).1
  }

  /** Whether each of the first `k` timeframes was saved, in timeframe order. */
  function SavedFlags(tables: map<string, seq<Record>>, inputs: seq<Fetched>, ctx: Context, k: nat): (flags: seq<bool>)
    requires k <= |inputs| == |Timeframes|
    ensures |flags| == k
  {
    if k == 0 then [] else SavedFlags(tables, inputs, ctx, k - 1) + [Saved(tables, inputs, ctx, k - 1)]
  }

  /** Flag `j` tells whether timeframe `j` was saved, however many timeframes follow it. */
  lemma {:induction false} SavedFlagAt(tables: map<string, seq<Record>>, inputs: seq<Fetched>, ctx: Context, k: nat, j: nat)
    requires j < k <= |inputs| == |Timeframes|
    ensures SavedFlags(tables, inputs, ctx, k)[j] == Saved(tables, inputs, ctx, j)
  {
    var prev := SavedFlags(tables, inputs, ctx, k - 1);
    var last := Saved(tables, inputs, ctx, k - 1);
    assert SavedFlags(tables, inputs, ctx, k) == prev + [last];
    if j < k - 1 {
      SavedFlagAt(tables, inputs, ctx, k - 1, j);
      assert (prev + [last])[j] == prev[j];
    }
  }

  /** One pass of the loop body on the timeframe's table, as the source runs it: fetch
      and decorate, convert PLAYER_ID, then delete and insert. */
  method SaveTimeframe(table: seq<Record>, games: int, input: Fetched, ctx: Context)
    returns (after: seq<Record>, ok: bool)
    ensures (after, ok) == SaveOne(table, games, input, ctx)
  {
    after, ok := table, false;
    var stats := GetTimberwolvesStats(input.players, games, ctx.teamGames, ctx.now, ctx.format, ctx.floatText);
    if stats.Err? {
      return;
    }
    var records := ToRecords(stats.value);
    var converted := ConvertPlayerIds(records);
    if converted.Err? {
      assert !IdsConvertible(records);
      return;
    }
    assert SaveOne(table, games, input, ctx) == SaveConverted(table, input.db, ConvertedIds(records));
    var r := SaveConverted(table, input.db, converted.value);
    after, ok := r.0, r.1;
  }

  /** `save_to_supabase()`: every timeframe is attempted whatever happened to the ones
      before it; the database and the success of each timeframe end as SavedTables and
      Saved say. */
  method SaveToSupabase(tables: map<string, seq<Record>>, inputs: seq<Fetched>, ctx: Context)
    returns (db: map<string, seq<Record>>, saved: seq<bool>)
    requires |inputs| == |Timeframes|
    ensures db == SavedTables(tables, inputs, ctx, |Timeframes|)
    ensures |saved| == |Timeframes|
    ensures forall k :: 0 <= k < |Timeframes| ==> saved[k] == Saved(tables, inputs, ctx, k)
  {
    db := tables;
    saved := [];
    var k := 0;
    while k < |Timeframes|
      invariant 0 <= k <= |Timeframes|
      invariant db == SavedTables(tables, inputs, ctx, k)
      invariant saved == SavedFlags(tables, inputs, ctx, k)
    {
      var ok;
      db, ok := SaveAt(tables, inputs, ctx, k, db);
      SavedFlagsStep(tables, inputs, ctx, k);
      saved := saved + [ok];
      k := k + 1;
    }
    SavedFlagsAll(tables, inputs, ctx, k);
  }

  lemma SavedFlagsStep(tables: map<string, seq<Record>>, inputs: seq<Fetched>, ctx: Context, k: nat)
    requires k < |inputs| == |Timeframes|
    ensures SavedFlags(tables, inputs, ctx, k + 1) == SavedFlags(tables, inputs, ctx, k) + [Saved(tables, inputs, ctx, k)]
  {
  }

  lemma SavedFlagsAll(tables: map<string, seq<Record>>, inputs: seq<Fetched>, ctx: Context, k: nat)
    requires k <= |inputs| == |Timeframes|
    ensures |SavedFlags(tables, inputs, ctx, k)| == k
    ensures forall j :: 0 <= j < k ==> SavedFlags(tables, inputs, ctx, k)[j] == Saved(tables, inputs, ctx, j)
  {
    forall j | 0 <= j < k
      ensures SavedFlags(tables, inputs, ctx, k)[j] == Saved(tables, inputs, ctx, j)
    {
      SavedFlagAt(tables, inputs, ctx, k, j);
    }
  }

  /** The loop body for timeframe `k`: a table missing from the database is skipped. */
  method SaveAt(tables: map<string, seq<Record>>, inputs: seq<Fetched>, ctx: Context, k: nat, db: map<string, seq<Record>>)
    returns (db': map<string, seq<Record>>, ok: bool)
    requires k < |inputs| == |Timeframes|
    requires db == SavedTables(tables, inputs, ctx, k)
    ensures db' == SavedTables(tables, inputs, ctx, k + 1)
    ensures ok == Saved(tables, inputs, ctx, k)
  {
    var t := Timeframes[k];
    db', ok := db, false;
    if t.table in db {
      var after;
      after, ok := SaveTimeframe(db[t.table], t.games, inputs[k], ctx);
      db' := db[t.table := after];
    }
  }

  /** The three table names. */
  const TableNames: set<string> := set t | t in Timeframes :: t.table

  lemma TablesDistinct()
    ensures forall a, b :: 0 <= a < b < |Timeframes| ==> Timeframes[a].table != Timeframes[b].table
    ensures forall j :: 0 <= j < |Timeframes| ==> Timeframes[j].table in TableNames
  {
  }

  /** Each table ends as its own timeframe's pass made it, from its own starting rows:
      what happened to the other timeframes, failures included, does not reach it; the
      tables of later timeframes and the tables outside the three are untouched. */
  lemma {:induction false} SavedTablesIndependent(tables: map<string, seq<Record>>, inputs: seq<Fetched>, ctx: Context, k: nat)
    requires k <= |inputs| == |Timeframes|
    ensures forall j :: 0 <= j < k && Timeframes[j].table in tables ==>
      SavedTables(tables, inputs, ctx, k)[Timeframes[j].table] ==
      SaveOne(tables[Timeframes[j].table], Timeframes[j].games, inputs[j], ctx).0
    ensures forall j :: k <= j < |Timeframes| && Timeframes[j].table in tables ==>
      SavedTables(tables, inputs, ctx, k)[Timeframes[j].table] == tables[Timeframes[j].table]
    ensures forall name :: name in tables && name !in TableNames ==>
      SavedTables(tables, inputs, ctx, k)[name] == tables[name]
  {
    if k > 0 {
      SavedTablesIndependent(tables, inputs, ctx, k - 1);
      TablesDistinct();
    }
  }

  /** The success of timeframe `k` depends on its own fetch and its table's starting rows
      only. */
  lemma SavedIndependent(tables: map<string, seq<Record>>, inputs: seq<Fetched>, ctx: Context, k: nat)
    requires k < |inputs| == |Timeframes|
    ensures Saved(tables, inputs, ctx, k) <==>
      Timeframes[k].table in tables && SaveOne(tables[Timeframes[k].table], Timeframes[k].games, inputs[k], ctx).1
  {
    SavedTablesIndependent(tables, inputs, ctx, k);
  }
}
