/** bball_reference_nba_records.py: the stat type read from a leaders URL, the numeric
    test on a value cell, the choice of table on a page and the row loop of
    scrape_stat_page, which carries the last non-blank rank forward. Pages are given as
    their tables; each row as its class list and the texts of its cells. */
module BbrefRecords {
  import opened Wrappers
  import opened Text
  import opened Numbers

  const Leaders: string := "leaders/"
  const Suffixes: seq<string> := ["_season", "_career", "_active"]

  /** `s.split(p)[0]`: the text before the first occurrence of `p`, or all of `s`. */
  function Before(s: string, p: string): (r: string)
    requires |p| > 0
    ensures Contains(s, p) ==> StartsWith(s, r + p) && !Contains(r, p)
    ensures !Contains(s, p) ==> r == s
  {
    match Find(s, p)
    case None => s
    case Some(k) =>
      var r := s[..k];
      assert s[..k + |p|] == r + p;
      forall j | 0 <= j
        ensures !OccursAt(r, p, j)
      {
        if OccursAt(r, p, j) {
          assert s[j..j + |p|] == r[j..j + |p|];
          assert OccursAt(s, p, j);
        }
      }
      ContainsIff(r, p);
      r
  }

  /** `s.split(p)[1]`: the text between the first and the second occurrence of `p`. */
  function Between(s: string, p: string): (r: string)
    requires |p| > 0 && Contains(s, p)
    ensures var k := Find(s, p).value; StartsWith(s[k + |p|..], r) && !Contains(r, p)
  {
    var k := Find(s, p).value;
    var r := Before(s[k + |p|..], p);
    assert StartsWith(s[k + |p|..], r) by {
      if Contains(s[k + |p|..], p) {
        assert (r + p)[..|r|] == r;
      }
    }
    r
  }

  /** Before and Between are the first two pieces of `str.split`. */
  lemma PiecesOfSplit(s: string, p: string)
    requires |p| > 0
    ensures Before(s, p) == SplitOn(s, p)[0]
    ensures Contains(s, p) ==> Between(s, p) == SplitOn(s, p)[1]
  {
    if Contains(s, p) {
      var k := Find(s, p).value;
      var rest := s[k + |p|..];
      assert SplitOn(s, p)[1] == SplitOn(rest, p)[0];
    }
  }

  /** The first of the suffixes, in list order, that occurs in `rem`. */
  function ChosenSuffix(rem: string): (r: Option<string>)
    ensures r.None? <==> forall x :: x in Suffixes ==> !Contains(rem, x)
    ensures r.Some? ==> Contains(rem, r.value)
    ensures r.Some? ==>
      exists i :: 0 <= i < |Suffixes| && Suffixes[i] == r.value && forall j :: 0 <= j < i ==> !Contains(rem, Suffixes[j])
  {
    if Contains(rem, "_season") then
      assert Suffixes[0] == "_season";
      Some("_season")
    else if Contains(rem, "_career") then
      assert Suffixes[1] == "_career";
      Some("_career")
    else if Contains(rem, "_active") then
      assert Suffixes[2] == "_active";
      Some("_active")
    else None
  }

  /** get_stat_type: IndexError when the URL has no "leaders/"; otherwise the piece after
      it, cut before the first suffix in list order that occurs in it. */
  function StatType(url: string): (r: Result<string>)
    ensures r.Err? <==> !Contains(url, Leaders)
    ensures r.Err? ==> r.error == IndexError
    ensures r.Ok? ==> var rem := Between(url, Leaders);
      StartsWith(rem, r.value)
      && (ChosenSuffix(rem).None? ==> r.value == rem)
      && (ChosenSuffix(rem).Some? ==>
            StartsWith(rem, r.value + ChosenSuffix(rem).value) && !Contains(r.value, ChosenSuffix(rem).value))
  {
    if !Contains(url, Leaders) then Err(IndexError)
    else
      var rem := Between(url, Leaders);
      match ChosenSuffix(rem)
      case None => Ok(rem)
      case Some(x) =>
        var r := Before(rem, x);
        assert StartsWith(rem, r) by {
          assert (r + x)[..|r|] == r;
        }
        Ok(r)
  }

    /** The suffix that comes first in the list wins even when another occurs earlier in
      the text: a remainder that is a stat name followed by its first "_season" yields
      the whole name, "_active" or "_career" inside it included. */
  lemma StatTypeSuffixOrder(p: string)
    requires !Contains(p + "_season", Leaders)
    requires forall j :: 0 <= j < |p| ==> !OccursAt(p + "_season", "_season", j)
    ensures StatType(Leaders + (p + "_season")) == Ok(p)
  {
    var rest := p + "_season";
    var url := Leaders + rest;
    assert OccursAt(url, Leaders, 0);
    FindIsFirst(url, Leaders, 0);
    assert url[8..] == rest;
    assert Between(url, Leaders) == rest;
    assert OccursAt(rest, "_season", |p|);
    FindIsFirst(rest, "_season", |p|);
    assert ChosenSuffix(rest) == Some("_season");
    assert rest[..|p|] == p;
  }

  /** clean_value: commas removed and whitespace stripped, then the `float()` test. */
  predicate IsNumericValue(value: string) {
    IsFloatText(Strip(RemoveAll(value, ",")))
  }

  /** A table of the page: its id, its classes and its rows. */
  datatype Table = Table(id: Option<string>, classes: seq<string>, rows: seq<Row>)

  /** A row: whether its class list holds "thead" or "thead2", and the texts of its td/th
      cells, each as `cell.text.strip()`. */
  datatype Row = Row(header: bool, cells: seq<string>)

  /** The first table satisfying `p`, in page order. */
  function FirstTable(tables: seq<Table>, p: Table -> bool): (r: Option<Table>)
    ensures r.None? <==> forall t :: t in tables ==> !p(t)
    ensures r.Some? ==> r.value in tables && p(r.value)
  {
    if |tables| == 0 then None
    else if p(tables[0]) then Some(tables[0])
    else
      assert forall t :: t in tables <==> t == tables[0] || t in tables[1..];
      FirstTable(tables[1..], p)
  }

  predicate HasId(t: Table, id: string) {
    t.id == Some(id)
  }

  predicate IsStatsTable(t: Table) {
    t.id.Some? && StartsWith(t.id.value, "stats_")
  }

  /** The table choice of scrape_stat_page: for Career and Active records the table with
      id "tot", else "nba", else the first table; for the others the first whose id
      starts with "stats_", else the first with class "stats_table". */
  function ChooseTable(tables: seq<Table>, recordType: string): (r: Option<Table>)
    ensures r.Some? ==> r.value in tables
    ensures recordType in {"Career", "Active"} ==> (r.None? <==> |tables| == 0)
    ensures recordType in {"Career", "Active"} && (exists t :: t in tables && HasId(t, "tot")) ==> HasId(r.value, "tot")
    ensures recordType !in {"Career", "Active"} ==>
      (r.None? <==> forall t :: t in tables ==> !IsStatsTable(t) && "stats_table" !in t.classes)
  {
    if recordType == "Career" || recordType == "Active" then
      var tot := FirstTable(tables, t => HasId(t, "tot"));
      if tot.Some? then tot
      else
        var nba := FirstTable(tables, t => HasId(t, "nba"));
        if nba.Some? then nba
        else if |tables| > 0 then Some(tables[0]) else None
    else
      var stats := FirstTable(tables, IsStatsTable);
      if stats.Some? then stats else FirstTable(tables, (t: Table) => "stats_table" in t.classes)
  }

  /** A row of the extracted data. `rank` is None until a non-blank rank has been seen. */
  datatype Record = Record(rank: Option<string>, player: string, value: string, season: string,
                           recordType: string, statType: string)

  /** Header rows and rows without cells are skipped; only rows with at least 3 cells are read. */
  predicate Readable(row: Row) {
    !row.header && |row.cells| >= 3
  }

  /** The rank text of a readable row: the first cell stripped, trailing dots removed. */
  function RankText(row: Row): string
    requires |row.cells| >= 1
  {
    RStripChar(row.cells[0], '.')
  }

  /** The rank carried after `row`: its own rank text when it is readable and not blank. */
  function CarriedRank(last: Option<string>, row: Row): Option<string> {
    if Readable(row) && RankText(row) != "" then Some(RankText(row)) else last
  }

  /** The row is readable and its value passes clean_value. */
  predicate Kept(row: Row, numeric: string -> bool) {
    Readable(row) && numeric(row.cells[2])
  }

  /** The record appended for a kept row; Season is read only for "Single Season" records. */
  function RecordOf(rank: Option<string>, row: Row, recordType: string, statType: string): Record
    requires Readable(row)
  {
    var season := if |row.cells| > 3 && recordType == "Single Season" then row.cells[3] else "";
    Record(rank, row.cells[1], row.cells[2], season, recordType, statType)
  }

  /** The rank carried after the rows: the last non-blank one read so far. */
  function LastRank(rows: seq<Row>): Option<string> {
    if |rows| == 0 then None else CarriedRank(LastRank(rows[..|rows| - 1]), rows[|rows| - 1])
  }

  /** The data list after the rows. */
  function Extracted(rows: seq<Row>, recordType: string, statType: string, numeric: string -> bool): seq<Record> {
    if |rows| == 0 then []
    else
      var n := |rows| - 1;
      var rank := CarriedRank(LastRank(rows[..n]), rows[n]);
      Extracted(rows[..n], recordType, statType, numeric) + if Kept(rows[n], numeric) then [RecordOf(rank, rows[n], recordType, statType)] else []
  }

  /** One more row: the rank is carried over it and its record, when kept, is appended. */
  lemma ExtractedStep(rows: seq<Row>, i: nat, recordType: string, statType: string, numeric: string -> bool)
    requires i < |rows|
    ensures LastRank(rows[..i + 1]) == CarriedRank(LastRank(rows[..i]), rows[i])
    ensures Extracted(rows[..i + 1], recordType, statType, numeric)
      == Extracted(rows[..i], recordType, statType, numeric)
       + if Kept(rows[i], numeric) then [RecordOf(CarriedRank(LastRank(rows[..i]), rows[i]), rows[i], recordType, statType)] else []
  {
    assert rows[..i + 1][..i] == rows[..i];
  }

  /** The loop of scrape_stat_page over the chosen table's rows; `numeric` is the value
      test, clean_value (IsNumericValue) in the script. */
  method ExtractRows(rows: seq<Row>, recordType: string, statType: string, numeric: string -> bool)
    returns (data: seq<Record>)
    ensures data == Extracted(rows, recordType, statType, numeric)
  {
    var lastRank: Option<string> := None;
    data := [];
    var i := 0;
    while i < |rows|
      invariant 0 <= i <= |rows|
      invariant lastRank == LastRank(rows[..i])
      invariant data == Extracted(rows[..i], recordType, statType, numeric)
    {
      ExtractedStep(rows, i, recordType, statType, numeric);
      var row := rows[i];
      if row.header {
        i := i + 1;
        continue;
      }
      if |row.cells| == 0 {
        i := i + 1;
        continue;
      }
      if |row.cells| >= 3 {
        ghost var before := data;
        var rankText := RStripChar(row.cells[0], '.');
        if rankText != "" {
          lastRank := Some(rankText);
        }
        var player := row.cells[1];
        var value := row.cells[2];
        if numeric(value) {
          var season := "";
          if |row.cells| > 3 && recordType == "Single Season" {
            season := row.cells[3];
          }
          data := data + [Record(lastRank, player, value, season, recordType, statType)];
          assert data == before + [RecordOf(lastRank, row, recordType, statType)];
        }
      }
      i := i + 1;
    }
    assert rows[..i] == rows;
  }

  /** scrape_stat_page once the page is fetched: None when no table is chosen, when it
      has no rows or when no row is extracted; `statType` is get_stat_type's result. */
  method ScrapeTables(tables: seq<Table>, recordType: string, statType: string) returns (r: Option<seq<Record>>)
    ensures ChooseTable(tables, recordType).None? ==> r.None?
    ensures ChooseTable(tables, recordType).Some? ==>
      var data := Extracted(ChooseTable(tables, recordType).value.rows, recordType, statType, IsNumericValue);
      r == if |data| == 0 then None else Some(data)
  {
    var table := ChooseTable(tables, recordType);
    if table.None? {
      return None;
    }
    if |table.value.rows| == 0 {
      return None;
    }
    var data := ExtractRows(table.value.rows, recordType, statType, IsNumericValue);
    if |data| == 0 {
      return None;
    }
    return Some(data);
  }

  /** scrape_stat_page on a fetched page: the stat type is read from the URL first, and
      the IndexError of a URL without "leaders/" is caught like any other exception. */
  method ScrapeStatPage(url: string, tables: seq<Table>, recordType: string) returns (r: Option<seq<Record>>)
    ensures StatType(url).Err? ==> r.None?
    ensures StatType(url).Ok? && r.Some? ==>
      forall d :: d in r.value ==> d.statType == StatType(url).value && d.recordType == recordType
    ensures StatType(url).Ok? ==>
      (r.Some? <==>
        (ChooseTable(tables, recordType).Some?
         && |Extracted(ChooseTable(tables, recordType).value.rows, recordType, StatType(url).value, IsNumericValue)| > 0))
  {
    match StatType(url)
    case Err(_) =>
      return None;
    case Ok(statType) =>
      r := ScrapeTables(tables, recordType, statType);
      if r.Some? {
        RecordsFromNumericRows(ChooseTable(tables, recordType).value.rows, recordType, statType, IsNumericValue);
      }
  }

  /** Every extracted record comes from a readable row with a numeric value, the season
      is blank unless the records are "Single Season", and there are no more records
      than rows. */
  lemma {:induction false} RecordsFromNumericRows(rows: seq<Row>, recordType: string, statType: string,
                                                  numeric: string -> bool)
    ensures var data := Extracted(rows, recordType, statType, numeric);
      |data| <= |rows|
      && forall d :: d in data ==>
        numeric(d.value) && d.recordType == recordType && d.statType == statType
        && (recordType != "Single Season" ==> d.season == "")
  {
    if |rows| > 0 {
      var n := |rows| - 1;
      RecordsFromNumericRows(rows[..n], recordType, statType, numeric);
      var row := rows[n];
      var added := if Kept(row, numeric) then [RecordOf(CarriedRank(LastRank(rows[..n]), row), row, recordType, statType)] else [];
      assert Extracted(rows, recordType, statType, numeric) == Extracted(rows[..n], recordType, statType, numeric) + added;
    }
  }

  /** A readable row with a non-blank rank text. */
  predicate Ranked(row: Row) {
    Readable(row) && RankText(row) != ""
  }

  /** The carried rank is the rank text of the last readable row with a non-blank one,
      whether or not that row's value was kept; None when there is no such row. */
  lemma {:induction false} RankCarriedForward(rows: seq<Row>)
    ensures LastRank(rows).None? <==> forall j :: 0 <= j < |rows| ==> !Ranked(rows[j])
    ensures LastRank(rows).Some? ==>
      exists j :: 0 <= j < |rows| && Ranked(rows[j]) && RankText(rows[j]) == LastRank(rows).value
        && forall k :: j < k < |rows| ==> !Ranked(rows[k])
  {
    if |rows| > 0 {
      var n := |rows| - 1;
      var init := rows[..n];
      RankCarriedForward(init);
      var prev := LastRank(init);
      assert LastRank(rows) == CarriedRank(prev, rows[n]);
      assert forall j :: 0 <= j < n ==> init[j] == rows[j];
      if Ranked(rows[n]) {
        assert LastRank(rows) == Some(RankText(rows[n]));
      } else if prev.Some? {
        assert LastRank(rows) == prev;
        var j :| 0 <= j < n && Ranked(init[j]) && RankText(init[j]) == prev.value
          && forall k :: j < k < n ==> !Ranked(init[k]);
        assert Ranked(rows[j]) && RankText(rows[j]) == prev.value;
        assert forall k :: j < k < |rows| ==> !Ranked(rows[k]);
      }
    }
  }

  lemma NotANumber()
    ensures !IsNumericValue("n/a")
  {
    LStripNoEdge("n/a");
    RStripNoEdge("n/a");
    AbsentFirstChar("n/a", ",");
    assert RemoveAll("n/a", ",") == "n/a";
    assert Strip("n/a") == "n/a";
    assert Unsigned("n/a") == "n/a";
    assert ScanDigits("n/a", 0) == 0;
    assert Lower("n/a") == "n/a";
  }

  lemma TenIsANumber()
    ensures IsNumericValue("10")
  {
    LStripNoEdge("10");
    RStripNoEdge("10");
    AbsentFirstChar("10", ",");
    assert RemoveAll("10", ",") == "10";
    assert Strip("10") == "10";
    assert Unsigned("10") == "10";
    ScanFrom("10", 0, 2);
  }

  /** A row dropped for its value still passes its rank on: the blank-ranked numeric
      row after it is recorded with that rank. */
  lemma DroppedRowPassesRank(r1: Row, r2: Row, recordType: string, statType: string, numeric: string -> bool)
    requires Readable(r1) && Readable(r2) && RankText(r1) != "" && RankText(r2) == ""
    requires !numeric(r1.cells[2]) && numeric(r2.cells[2])
    ensures Extracted([r1, r2], recordType, statType, numeric) == [RecordOf(Some(RankText(r1)), r2, recordType, statType)]
  {
    assert [r1, r2][..1] == [r1] && [r1][..0] == [];
    assert LastRank([r1]) == Some(RankText(r1));
    assert Extracted([r1], recordType, statType, numeric) == [];
  }

  /** The same on concrete rows: "1." over a non-numeric value, then a blank rank. */
  lemma DroppedRowExample()
    ensures Extracted([Row(false, ["1.", "A", "n/a"]), Row(false, ["", "B", "10"])], "Career", "pts", IsNumericValue)
      == [Record(Some("1"), "B", "10", "", "Career", "pts")]
  {
    var r1 := Row(false, ["1.", "A", "n/a"]);
    var r2 := Row(false, ["", "B", "10"]);
    assert RankText(r1) == "1";
    assert RankText(r2) == "";
    NotANumber();
    TenIsANumber();
    DroppedRowPassesRank(r1, r2, "Career", "pts", IsNumericValue);
  }
}
