/** The advanced team stats CSV (advanced_team_stats.py): the league team dashboard turned
    into one record per team, a W-L `Record` column added, four columns renamed, and the
    two chosen teams' five stats flattened under a slot-numbered header. */
module AdvancedTeam {
  import opened Wrappers
  import opened Text
  import opened Lists
  import opened Frames
  import opened BoxScore

  /** The length of the longest row, 0 for no rows. */
  function Widest(rows: seq<seq<Cell>>): (m: nat)
    ensures forall i :: 0 <= i < |rows| ==> |rows[i]| <= m
    ensures |rows| > 0 ==> exists i :: 0 <= i < |rows| && |rows[i]| == m
  {
    if |rows| == 0 then 0
    else
      var m := Widest(rows[1..]);
      assert forall i :: 1 <= i < |rows| ==> rows[i] == rows[1..][i - 1];
      if |rows[0]| >= m then |rows[0]| else m
  }

  /** A row padded with missing values up to `n` cells. */
  function Padded(row: seq<Cell>, n: nat): (p: seq<Cell>)
    requires |row| <= n
    ensures |p| == n && p[..|row|] == row
    ensures forall k :: |row| <= k < n ==> p[k] == Blank
  {
    row + seq(n - |row|, _ => Blank)
  }

  /** `process_data`: `pd.DataFrame(rowSet, columns=headers)` on a list of lists. The
      rows are laid out as wide as the widest one, shorter rows padded with NaN, and a
      ValueError is raised when that width is not the number of headers; an empty row
      set gives an empty frame with the headers. */
  function ProcessData(headers: seq<string>, rowSet: seq<seq<Cell>>): (r: Result<Frame>)
    ensures r.Ok? <==> |rowSet| == 0 || Widest(rowSet) == |headers|
    ensures r.Err? ==> r.error == ValueError
    ensures r.Ok? && Distinct(headers) ==> WellFormed(r.value)
    ensures r.Ok? ==> r.value.columns == headers && |r.value.rows| == |rowSet|
    ensures r.Ok? ==> forall i :: 0 <= i < |rowSet| ==>
      |r.value.rows[i]| == |headers| && r.value.rows[i][..|rowSet[i]|] == rowSet[i]
      && forall k :: |rowSet[i]| <= k < |headers| ==> r.value.rows[i][k] == Blank
  {
    if |rowSet| == 0 || Widest(rowSet) == |headers| then
      var rows := seq(|rowSet|, i requires 0 <= i < |rowSet| => Padded(rowSet[i], |headers|));
      assert forall row :: row in rows ==> |row| == |headers|;
      Ok(Frame(headers, rows))
    else Err(ValueError)
  }

  /** A row set mixing full and short rows is accepted, the short row padded: headers
      "a", "b" over the rows [1, 2] and [3] give a second row [3, NaN]. */
  lemma RaggedRowsPadded()
    ensures var r := ProcessData(["a", "b"], [[IntCell(1), IntCell(2)], [IntCell(3)]]);
      r.Ok? && r.value.rows == [[IntCell(1), IntCell(2)], [IntCell(3), Blank]]
  {
    var rowSet := [[IntCell(1), IntCell(2)], [IntCell(3)]];
    assert Widest(rowSet) == 2 by {
      assert |rowSet[0]| == 2 && |rowSet[1]| == 1;
    }
    var r := ProcessData(["a", "b"], rowSet);
    var out := r.value.rows;
    assert out[0] == out[0][..2] == rowSet[0];
    assert out[1] == [out[1][..1][0], out[1][1]];
  }

  /** One row of the frame as a record: each column name to its cell. */
  function RowRecord(columns: seq<string>, row: seq<Cell>): (r: Record)
    ensures forall c :: c in r <==> c in columns
    ensures forall c :: c in columns ==> r[c] == Get(columns, row, c)
  {
    map c | c in columns :: Get(columns, row, c)
  }

  /** With distinct column names, the record holds each row cell under its own column. */
  lemma RowRecordCells(columns: seq<string>, row: seq<Cell>)
    requires Distinct(columns) && |row| == |columns|
    ensures forall k :: 0 <= k < |columns| ==> RowRecord(columns, row)[columns[k]] == row[k]
  {
    forall k | 0 <= k < |columns| ensures RowRecord(columns, row)[columns[k]] == row[k] {
      GetAt(columns, row, k);
    }
  }

  /** `df['W'].astype(str) + '-' + df['L'].astype(str)` for one row. */
  function WinLoss(r: Record, floatText: real -> string): string
    requires "W" in r && "L" in r
  {
    CellText(r["W"], floatText) + "-" + CellText(r["L"], floatText)
  }

  /** For integer win and loss counts the Record is the box score's made-attempted shape,
      so it reads back as the two counts. */
  lemma WinLossReadsBack(r: Record, w: nat, l: nat, floatText: real -> string)
    requires "W" in r && "L" in r && r["W"] == IntCell(w) && r["L"] == IntCell(l)
    ensures WinLoss(r, floatText) == MadeAttempted(w, l)
    ensures var s := WinLoss(r, floatText);
      Find(s, "-").Some? &&
      ParseInt(s[..Find(s, "-").value]) == Some(w) &&
      ParseInt(s[Find(s, "-").value + 1..]) == Some(l)
  {
    MadeAttemptedRoundTrip(w, l);
  }

  /** The four renames, in the order the script applies them. */
  const Renames: seq<(string, string)> :=
    [("OFF_RATING", "OFF RTG"), ("DEF_RATING", "DEF RTG"), ("AST_TO", "AST/TO"), ("REB_PCT", "REB%")]

  lemma RenamesIndependent()
    ensures Independent(Renames)
  {
  }

  /** A team's record after the column work: Record added, then the four renames. */
  function TeamRow(r: Record, floatText: real -> string): Record
    requires "W" in r && "L" in r
  {
    RenameKeys(r["Record" := TextCell(WinLoss(r, floatText))], Renames)
  }

  /** Neither the added Record column nor TEAM_NAME is renamed. */
  lemma FixedColumnsUntouched()
    ensures Untouched(Renames, "Record") && Untouched(Renames, "TEAM_NAME")
  {
  }

  /** The column work keeps the team's name, adds its W-L Record, and moves each renamed
      rating to its new name; nothing else moves. */
  lemma TeamRowFields(r: Record, floatText: real -> string)
    requires "W" in r && "L" in r
    ensures var t := TeamRow(r, floatText);
      "Record" in t && t["Record"] == TextCell(WinLoss(r, floatText)) &&
      ("TEAM_NAME" in t <==> "TEAM_NAME" in r) &&
      ("TEAM_NAME" in r ==> t["TEAM_NAME"] == r["TEAM_NAME"]) &&
      (forall i :: 0 <= i < |Renames| && Renames[i].0 in r ==>
        Renames[i].1 in t && t[Renames[i].1] == r[Renames[i].0])
  {
    RenamesIndependent();
    FixedColumnsUntouched();
    AddThenRename(r, "Record", TextCell(WinLoss(r, floatText)), Renames, "TEAM_NAME");
  }

  /** A team row whose dashboard row has the four rated columns carries the five stats. */
  lemma TeamRowHasStats(r: Record, floatText: real -> string)
    requires "W" in r && "L" in r
    requires forall i :: 0 <= i < |Renames| ==> Renames[i].0 in r
    ensures forall st :: st in TeamStats ==> st in TeamRow(r, floatText)
  {
    TeamRowFields(r, floatText);
    assert TeamStats == ["Record", Renames[0].1, Renames[1].1, Renames[2].1, Renames[3].1];
  }

  /** The frame's rows as team records after the column work. */
  function TeamRows(f: Frame, floatText: real -> string): (rows: seq<Record>)
    requires "W" in f.columns && "L" in f.columns
    ensures |rows| == |f.rows|
    ensures forall i :: 0 <= i < |f.rows| ==> rows[i] == TeamRow(RowRecord(f.columns, f.rows[i]), floatText)
  {
    seq(|f.rows|, i requires 0 <= i < |f.rows| => TeamRow(RowRecord(f.columns, f.rows[i]), floatText))
  }

  /** The five stats shown for each team. */
  const TeamStats: seq<string> := ["Record", "OFF RTG", "DEF RTG", "AST/TO", "REB%"]

  /** The two chosen teams. */
  const Teams: seq<Selection> :=
    [Selection("Minnesota Timberwolves", TeamStats), Selection("Denver Nuggets", TeamStats)]

  /** The dashboard columns the script relies on: W, L and the four rated columns. */
  predicate HasDashboardColumns(columns: seq<string>) {
    "W" in columns && "L" in columns && forall i :: 0 <= i < |Renames| ==> Renames[i].0 in columns
  }

  /** On a dashboard with its usual columns every team row carries the five stats. */
  lemma TeamRowsCarryStats(f: Frame, floatText: real -> string)
    requires HasDashboardColumns(f.columns)
    ensures forall i :: 0 <= i < |f.rows| ==> forall st :: st in TeamStats ==> st in TeamRows(f, floatText)[i]
  {
    forall i | 0 <= i < |f.rows|
      ensures forall st :: st in TeamStats ==> st in TeamRows(f, floatText)[i]
    {
      TeamRowHasStats(RowRecord(f.columns, f.rows[i]), floatText);
    }
  }

  /** A team row matches a name exactly when the dashboard row's TEAM_NAME does. */
  lemma TeamRowsMatch(f: Frame, floatText: real -> string, name: string)
    requires "W" in f.columns && "L" in f.columns
    ensures (exists i :: 0 <= i < |f.rows| && Matches(TeamRows(f, floatText)[i], "TEAM_NAME", name)) <==>
      exists i :: 0 <= i < |f.rows| && Matches(RowRecord(f.columns, f.rows[i]), "TEAM_NAME", name)
  {
    forall i | 0 <= i < |f.rows|
      ensures Matches(TeamRows(f, floatText)[i], "TEAM_NAME", name) <==> Matches(RowRecord(f.columns, f.rows[i]), "TEAM_NAME", name)
    {
      TeamRowFields(RowRecord(f.columns, f.rows[i]), floatText);
    }
  }

  /** On rows that carry the five stats, the two chosen teams are extracted exactly when
      both names occur in the TEAM_NAME column. */
  lemma TeamsFound(rows: seq<Record>)
    requires forall i :: 0 <= i < |rows| ==> forall st :: st in TeamStats ==> st in rows[i]
    ensures FormatAll(rows, "TEAM_NAME", Teams).Ok? <==>
      (exists i :: 0 <= i < |rows| && Matches(rows[i], "TEAM_NAME", "Minnesota Timberwolves")) &&
      (exists i :: 0 <= i < |rows| && Matches(rows[i], "TEAM_NAME", "Denver Nuggets"))
  {
    FormatPairWhenStatsPresent(rows, "TEAM_NAME", "Minnesota Timberwolves", "Denver Nuggets", TeamStats);
  }

  /** On a dashboard with its usual columns the two chosen teams are extracted exactly
      when both have a row; otherwise the extraction fails with IndexError. */
  lemma TeamExtraction(f: Frame, floatText: real -> string)
    requires HasDashboardColumns(f.columns)
    ensures FormatAll(TeamRows(f, floatText), "TEAM_NAME", Teams).Ok? <==>
      (exists i :: 0 <= i < |f.rows| && Matches(RowRecord(f.columns, f.rows[i]), "TEAM_NAME", "Minnesota Timberwolves")) &&
      (exists i :: 0 <= i < |f.rows| && Matches(RowRecord(f.columns, f.rows[i]), "TEAM_NAME", "Denver Nuggets"))
  {
    TeamRowsCarryStats(f, floatText);
    TeamsFound(TeamRows(f, floatText));
    TeamRowsMatch(f, floatText, "Minnesota Timberwolves");
    TeamRowsMatch(f, floatText, "Denver Nuggets");
  }

  /** The header loop as written runs `range(1, 5)`: four slots of five pairs. */
  const HeaderSlotsAsWritten: nat := 4

  /** The slots the data fills: one per chosen team. */
  const HeaderSlots: nat := 2

  /** As written, the header has 44 names while the data line has 22 fields: the first
      22 names are the right header, and the 22 after them (slots 3 and 4) label nothing. */
  lemma HeaderAsWrittenMismatch(rows: seq<Record>)
    ensures |HeaderNames(HeaderSlotsAsWritten, 5)| == 44
    ensures HeaderNames(HeaderSlots, 5) <= HeaderNames(HeaderSlotsAsWritten, 5)
    ensures var items := FormatAll(rows, "TEAM_NAME", Teams);
      items.Ok? ==> |items.value| == 22 && |HeaderNames(HeaderSlotsAsWritten, 5)| == |items.value| + 22
  {
    HeaderPrefix(HeaderSlotsAsWritten, 5, HeaderSlots);
    FieldCountUniform(Teams, 5);
  }

  /** With one slot per chosen team the header names every field of the data line. */
  lemma HeaderMatchesData(rows: seq<Record>)
    ensures var items := FormatAll(rows, "TEAM_NAME", Teams);
      items.Ok? ==> |HeaderNames(HeaderSlots, 5)| == |items.value| == 22
  {
    FieldCountUniform(Teams, 5);
  }

  /** The script from the processed frame on: KeyError when the frame has no TEAM_NAME
      column (the Minnesota lookup indexes it first), IndexError when Minnesota has no row
      or a chosen team has none, KeyError when a chosen stat is missing; otherwise the CSV
      with the header as written, four slots of five pairs. */
  method WriteTeams(f: Frame, floatText: real -> string) returns (csv: Result<string>)
    requires "W" in f.columns && "L" in f.columns
    ensures "TEAM_NAME" !in f.columns ==> csv == Err(KeyError)
    ensures var rows := TeamRows(f, floatText);
      "TEAM_NAME" in f.columns && FirstMatch(rows, "TEAM_NAME", "Minnesota Timberwolves").None? ==> csv == Err(IndexError)
    ensures var items := FormatAll(TeamRows(f, floatText), "TEAM_NAME", Teams);
      "TEAM_NAME" in f.columns ==>
      (csv.Ok? <==> items.Ok?) &&
      (csv.Err? ==> csv.error == IndexError || csv.error == KeyError) &&
      (csv.Ok? ==> csv.value == CsvFile(HeaderNames(HeaderSlotsAsWritten, 5), items.value, floatText))
  {
    if "TEAM_NAME" !in f.columns {
      return Err(KeyError);
    }
    csv := WriteRows(TeamRows(f, floatText), floatText);
  }

  /** `WriteTeams` on the team records of a frame that has a TEAM_NAME column. */
  method WriteRows(rows: seq<Record>, floatText: real -> string) returns (csv: Result<string>)
    ensures FirstMatch(rows, "TEAM_NAME", "Minnesota Timberwolves").None? ==> csv == Err(IndexError)
    ensures var items := FormatAll(rows, "TEAM_NAME", Teams);
      (csv.Ok? <==> items.Ok?) &&
      (csv.Err? ==> csv.error == IndexError || csv.error == KeyError) &&
      (csv.Ok? ==> csv.value == CsvFile(HeaderNames(HeaderSlotsAsWritten, 5), items.value, floatText))
  {
    var minnesota := FirstMatch(rows, "TEAM_NAME", "Minnesota Timberwolves");
    if minnesota.None? {
      assert Teams[0].name == "Minnesota Timberwolves";
      FirstSelectionMissing(rows, "TEAM_NAME", Teams);
      return Err(IndexError);
    }
    var items := ExtractFormatted(rows, "TEAM_NAME", Teams);
    if items.Err? {
      return Err(items.error);
    }
    var header := BuildHeader(HeaderSlotsAsWritten, 5);
    csv := Ok(CsvFile(header, items.value, floatText));
  }

  /** The script on the response: NameError when the status is not 200 (`data` is never
      bound), ValueError from `process_data` when the widest row does not match the headers, KeyError when W or L is
      missing, and otherwise what the frame gives: KeyError without TEAM_NAME, and a CSV
      whose header has the four slots as written. */
  method Run(status: int, headers: seq<string>, rowSet: seq<seq<Cell>>, floatText: real -> string)
    returns (csv: Result<string>)
    ensures status != 200 ==> csv == Err(NameError)
    ensures status == 200 && ProcessData(headers, rowSet).Err? ==> csv == Err(ValueError)
    ensures status == 200 && ProcessData(headers, rowSet).Ok? && ("W" !in headers || "L" !in headers) ==>
      csv == Err(KeyError)
    ensures status == 200 && ProcessData(headers, rowSet).Ok? && "W" in headers && "L" in headers ==>
      var f := ProcessData(headers, rowSet).value;
      var items := FormatAll(TeamRows(f, floatText), "TEAM_NAME", Teams);
      ("TEAM_NAME" !in headers ==> csv == Err(KeyError)) &&
      ("TEAM_NAME" in headers ==> (csv.Ok? <==> items.Ok?)) &&
      (csv.Ok? ==> csv.value == CsvFile(HeaderNames(HeaderSlotsAsWritten, 5), items.value, floatText))
  {
    if status != 200 {
      return Err(NameError);
    }
    var processed := ProcessData(headers, rowSet);
    if processed.Err? {
      return Err(processed.error);
    }
    var f := processed.value;
    if "W" !in f.columns || "L" !in f.columns {
      return Err(KeyError);
    }
    csv := WriteTeams(f, floatText);
  }
}
