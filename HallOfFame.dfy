/** hall_of_fame_list.py: the rows of the Hall of Fame table reduced to
    (Year, Name, Category) entries for the players. The HTTP status and the parsed table
    are parameters; each row is abstracted as the texts of the cells the code reads. */
module HallOfFame {
  import opened Wrappers
  import opened Text

  /** The name cell: the link text inside its first span, when that span has a link, and
      the cell's text once every span is removed. */
  datatype NameCell = NameCell(firstSpanLink: Option<string>, textWithoutSpans: string)

  /** A table row: the year_id header cell, the name_full cell and the category cell, each
      possibly missing. */
  datatype HofRow = HofRow(year: Option<string>, name: Option<NameCell>, category: Option<string>)

  datatype Entry = Entry(year: string, name: string, category: string)

  /** The row passes every skip rule of the loop. */
  predicate Kept(row: HofRow) {
    row.year.Some? && row.name.Some? && row.category.Some?
    && Lower(Strip(row.category.value)) == "player"
    && (row.name.value.firstSpanLink.Some? ==> Upper(Strip(row.name.value.firstSpanLink.value)) == "PLAYER")
  }

  function EntryOf(row: HofRow): Entry
    requires row.year.Some? && row.name.Some? && row.category.Some?
  {
    Entry(Strip(row.year.value), Strip(row.name.value.textWithoutSpans), Strip(row.category.value))
  }

  /** The entries of the kept rows, in table order. */
  function Entries(rows: seq<HofRow>): seq<Entry> {
    if |rows| == 0 then []
    else
      var n := |rows| - 1;
      Entries(rows[..n]) + (if Kept(rows[n]) then [EntryOf(rows[n])] else [])
  }

  /** fetch_nba_hall_of_fame_players: an empty list for a non-200 response or a page
      without the table, otherwise the loop over the table's rows. */
  method HallOfFamePlayers(status: int, table: Option<seq<HofRow>>) returns (players: seq<Entry>)
    ensures status != 200 || table.None? ==> players == []
    ensures status == 200 && table.Some? ==> players == Entries(table.value)
  {
    players := [];
    if status != 200 || table.None? {
      return;
    }
    var rows := table.value;
    var i := 0;
    while i < |rows|
      invariant 0 <= i <= |rows|
      invariant players == Entries(rows[..i])
    {
      assert rows[..i + 1][..i] == rows[..i];
      var row := rows[i];
      if !(row.year.Some? && row.name.Some? && row.category.Some?) {
        i := i + 1;
        continue;
      }
      if Lower(Strip(row.category.value)) != "player" {
        i := i + 1;
        continue;
      }
      var cell := row.name.value;
      if cell.firstSpanLink.Some? {
        if Upper(Strip(cell.firstSpanLink.value)) != "PLAYER" {
          i := i + 1;
          continue;
        }
      }
      players := players + [Entry(Strip(row.year.value), Strip(cell.textWithoutSpans), Strip(row.category.value))];
      i := i + 1;
    }
    assert rows[..i] == rows;
  }

  /** Every entry comes from a kept row, every kept row gives an entry, and the list is
      no longer than the table. */
  lemma {:induction false} EntriesFromKeptRows(rows: seq<HofRow>)
    ensures |Entries(rows)| <= |rows|
    ensures forall e :: e in Entries(rows) <==> exists r :: r in rows && Kept(r) && e == EntryOf(r)
  {
    if |rows| > 0 {
      var n := |rows| - 1;
      EntriesFromKeptRows(rows[..n]);
      assert rows == rows[..n] + [rows[n]];
      assert forall r :: r in rows <==> r in rows[..n] || r == rows[n];
    }
  }

  /** Every entry's category reads "player" in any letter case. */
  lemma EntriesArePlayers(rows: seq<HofRow>, e: Entry)
    requires e in Entries(rows)
    ensures Lower(e.category) == "player"
  {
    EntriesFromKeptRows(rows);
    var r :| r in rows && Kept(r) && e == EntryOf(r);
  }
}
