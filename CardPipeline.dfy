/** The card pipeline of `fetch_timberwolves_stats` put together from the steps in
    `SeasonCards`: when it fails, with which error, and what the card rows hold. */
module CardPipeline {
  import opened Wrappers
  import opened Frames
  import opened SeasonCards

  /** `fetch_timberwolves_stats` on the two fetched tables. With `s` the renamed stats:
      KeyError when the roster lacks a kept column or `s` lacks player_id or player_name;
      then IndexError when a text player name is all whitespace; then ValueError when `s`
      already has an id column; then KeyError when a card column is missing; otherwise a
      card under exactly desired_order, whose rows carry their running id first, a
      nickname that is the first word of the player name and the picture address of that
      name, where every stats row is carried by some card row and every card row carries
      some stats row. */
  function FetchTimberwolvesStats(stats: Frame, roster: Frame): (r: Result<Frame>)
    requires Aligned(stats) && Aligned(roster)
    ensures var s := RenameAll(stats, RenameStats);
      (!CardKeys(s, roster) ==> r == Err(KeyError)) &&
      (CardKeys(s, roster) && !NamesHaveWords(s) ==> r == Err(IndexError)) &&
      (CardKeys(s, roster) && NamesHaveWords(s) && "id" in s.columns ==> r == Err(ValueError)) &&
      (CardKeys(s, roster) && NamesHaveWords(s) && "id" !in s.columns && !CardColumnsPresent(s, DesiredOrder) ==>
        r == Err(KeyError)) &&
      (r.Ok? <==> (CardKeys(s, roster) && NamesHaveWords(s) && "id" !in s.columns && CardColumnsPresent(s, DesiredOrder)))
    ensures r.Ok? ==> r.value.columns == DesiredOrder && IsCard(r.value)
    ensures r.Ok? ==> |r.value.rows| >= |stats.rows|
    ensures r.Ok? ==> var s := RenameAll(stats, RenameStats);
      (forall i :: 0 <= i < |stats.rows| ==> CarriedIn(s, stats.rows[i], DesiredOrder, r.value.rows)) &&
      (forall j :: 0 <= j < |r.value.rows| ==> CarriesStats(s, DesiredOrder, r.value.rows[j]))
  {
    DesiredOrderPositions();
    var s := RenameAll(stats, RenameStats);
    if ReducedRoster(roster).Ok? then
      var ro := ReducedRoster(roster).value;
      CardOfRenamedOutcome(s, ro, DesiredOrder);
      if CardOfRenamed(s, ro, DesiredOrder).Ok? then
        CardOfRenamedCarries(s, ro, DesiredOrder);
        CardFrom(stats, roster, DesiredOrder)
      else
        CardFrom(stats, roster, DesiredOrder)
    else
      CardFrom(stats, roster, DesiredOrder)
  }

  /** The first position of `c` is the same once more names follow. */
  lemma {:induction false} PrefixIndex(xs: seq<string>, ys: seq<string>, c: string)
    requires c in xs
    ensures IndexOf(xs + ys, c) == IndexOf(xs, c)
  {
    if xs[0] != c {
      assert (xs + ys)[1..] == xs[1..] + ys;
      PrefixIndex(xs[1..], ys, c);
    }
  }

  /** A name among the first columns answers with the cell of the row's first part. */
  lemma PrefixGet(columns: seq<string>, extra: seq<string>, o: seq<Cell>, c: string)
    requires c in columns && |o| >= |columns|
    ensures Get(columns + extra, o, c) == Get(columns, o[..|columns|], c)
  {
    PrefixIndex(columns, extra, c);
  }

  /** `row` is the first part, `n` cells long, of some row of `mrows`. */
  predicate Heads(row: seq<Cell>, n: nat, mrows: seq<seq<Cell>>) {
    exists j :: 0 <= j < |mrows| && n <= |mrows[j]| && mrows[j][..n] == row
  }

  /** The first part of `mrow` is a row of the stats `s`. */
  predicate FromStats(s: Frame, mrow: seq<Cell>) {
    |s.columns| <= |mrow| && exists i :: 0 <= i < |s.rows| && mrow[..|s.columns|] == s.rows[i]
  }

  /** Each stats row heads a merged row, and each merged row is headed by a stats row. */
  predicate Covers(s: Frame, mrows: seq<seq<Cell>>) {
    (forall i :: 0 <= i < |s.rows| ==> Heads(s.rows[i], |s.columns|, mrows)) &&
    (forall j :: 0 <= j < |mrows| ==> FromStats(s, mrows[j]))
  }

  /** The left merge neither loses a stats row nor makes up a row. */
  lemma MergeCovers(s: Frame, ro: Frame, m: Frame)
    requires Aligned(s) && Aligned(ro) && ro.columns == RosterColumns && LeftMerge(s, ro) == Ok(m)
    ensures m.columns == s.columns + ["position", "jersey_number"] && Covers(s, m.rows)
  {
    MergeKeeps(s, ro, m);
    MergeSources(s, ro, m);
  }

  /** Every stats row heads some merged row. */
  lemma MergeKeeps(s: Frame, ro: Frame, m: Frame)
    requires Aligned(s) && Aligned(ro) && ro.columns == RosterColumns && LeftMerge(s, ro) == Ok(m)
    ensures forall i :: 0 <= i < |s.rows| ==> Heads(s.rows[i], |s.columns|, m.rows)
  {
    forall i | 0 <= i < |s.rows|
      ensures Heads(s.rows[i], |s.columns|, m.rows)
    {
      LeftMergeKeepsRows(s, ro, i);
    }
  }

  /** Every merged row is headed by some stats row. */
  lemma MergeSources(s: Frame, ro: Frame, m: Frame)
    requires Aligned(s) && Aligned(ro) && ro.columns == RosterColumns && LeftMerge(s, ro) == Ok(m)
    ensures forall j :: 0 <= j < |m.rows| ==> FromStats(s, m.rows[j])
  {
    forall j | 0 <= j < |m.rows|
      ensures FromStats(s, m.rows[j])
    {
      LeftMergeRowSource(s, ro, j);
    }
  }

  /** Through the left merge the player names hold a word exactly when the stats' do. */
  lemma MergeNames(s: Frame, ro: Frame, m: Frame)
    requires Aligned(s) && Aligned(ro) && ro.columns == RosterColumns && LeftMerge(s, ro) == Ok(m)
    requires "player_name" in s.columns
    ensures NamesHaveWords(m) <==> NamesHaveWords(s)
  {
    MergeCovers(s, ro, m);
    NamesThroughCover(s, m, ["position", "jersey_number"]);
  }

  /** Rows that cover the stats rows, under the stats columns and more, hold a word in
      every player name exactly when the stats rows do. */
  lemma NamesThroughCover(s: Frame, m: Frame, extra: seq<string>)
    requires "player_name" in s.columns && m.columns == s.columns + extra && Covers(s, m.rows)
    ensures NamesHaveWords(m) <==> NamesHaveWords(s)
  {
    var n := |s.columns|;
    if NamesHaveWords(s) {
      forall j | 0 <= j < |m.rows|
        ensures Nickname(Get(m.columns, m.rows[j], "player_name")).Ok?
      {
        assert FromStats(s, m.rows[j]);
        var i :| 0 <= i < |s.rows| && m.rows[j][..n] == s.rows[i];
        PrefixGet(s.columns, extra, m.rows[j], "player_name");
      }
    }
    if NamesHaveWords(m) {
      forall i | 0 <= i < |s.rows|
        ensures Nickname(Get(s.columns, s.rows[i], "player_name")).Ok?
      {
        assert Heads(s.rows[i], n, m.rows);
        var j :| 0 <= j < |m.rows| && n <= |m.rows[j]| && m.rows[j][..n] == s.rows[i];
        PrefixGet(s.columns, extra, m.rows[j], "player_name");
      }
    }
  }

  /** The pipeline from the merge on fails with KeyError without player_id or player_name,
      then with IndexError when a text player name is all whitespace, then with ValueError
      when an id column exists, then with KeyError when a card column is missing, and
      succeeds exactly when none of these happens. */
  lemma CardOfRenamedOutcome(s: Frame, ro: Frame, cols: seq<string>)
    requires Aligned(s) && Aligned(ro) && ro.columns == RosterColumns
    requires |cols| > 33 && cols[0] == "id" && cols[2] == "player_name" && cols[3] == "nickname" && cols[33] == "image_url"
    ensures var r := CardOfRenamed(s, ro, cols); var keys := "player_id" in s.columns && "player_name" in s.columns;
      (!keys ==> r == Err(KeyError)) &&
      (keys && !NamesHaveWords(s) ==> r == Err(IndexError)) &&
      (keys && NamesHaveWords(s) && "id" in s.columns ==> r == Err(ValueError)) &&
      (keys && NamesHaveWords(s) && "id" !in s.columns && !CardColumnsPresent(s, cols) ==> r == Err(KeyError)) &&
      (r.Ok? <==> (keys && NamesHaveWords(s) && "id" !in s.columns && CardColumnsPresent(s, cols)))
  {
    if "player_id" in s.columns {
      var m := LeftMerge(s, ro).value;
      if "player_name" in s.columns {
        MergeNames(s, ro, m);
        if NamesHaveWords(s) {
          var m2 := AddNameColumns(m).value;
          OutcomeAfterNames(s, ro, cols, m, m2);
        } else {
          OutcomeNoWord(s, ro, cols, m);
        }
      } else {
        OutcomeNoName(s, ro, cols, m);
      }
    }
  }

  /** Without player_name the name columns stop the pipeline with KeyError. */
  lemma OutcomeNoName(s: Frame, ro: Frame, cols: seq<string>, m: Frame)
    requires Aligned(s) && Aligned(ro) && ro.columns == RosterColumns
    requires |cols| > 33 && cols[0] == "id" && cols[2] == "player_name" && cols[3] == "nickname" && cols[33] == "image_url"
    requires LeftMerge(s, ro) == Ok(m) && "player_name" !in s.columns
    ensures CardOfRenamed(s, ro, cols) == Err(KeyError)
  {
    MergedColumn(s, m, "player_name");
  }

  /** A text player name without a word stops the pipeline with IndexError. */
  lemma OutcomeNoWord(s: Frame, ro: Frame, cols: seq<string>, m: Frame)
    requires Aligned(s) && Aligned(ro) && ro.columns == RosterColumns
    requires |cols| > 33 && cols[0] == "id" && cols[2] == "player_name" && cols[3] == "nickname" && cols[33] == "image_url"
    requires LeftMerge(s, ro) == Ok(m) && "player_name" in s.columns && !NamesHaveWords(m)
    ensures CardOfRenamed(s, ro, cols) == Err(IndexError)
  {
    MergedColumn(s, m, "player_name");
    NoWordFails(m);
  }

  /** Once the name columns are set: ValueError for an existing id column, otherwise
      the projection decides. */
  lemma OutcomeAfterNames(s: Frame, ro: Frame, cols: seq<string>, m: Frame, m2: Frame)
    requires Aligned(s) && Aligned(ro) && ro.columns == RosterColumns
    requires |cols| > 33 && cols[0] == "id" && cols[2] == "player_name" && cols[3] == "nickname" && cols[33] == "image_url"
    requires LeftMerge(s, ro) == Ok(m) && "player_name" in s.columns && NamesHaveWords(m)
    requires AddNameColumns(m) == Ok(m2)
    ensures "id" in s.columns ==> CardOfRenamed(s, ro, cols) == Err(ValueError)
    ensures "id" !in s.columns ==> (CardOfRenamed(s, ro, cols).Ok? <==> CardColumnsPresent(s, cols))
    ensures "id" !in s.columns && CardOfRenamed(s, ro, cols).Err? ==> CardOfRenamed(s, ro, cols).error == KeyError
  {
    IdAfterNames(s, m, m2);
    if "id" !in s.columns {
      var m3 := InsertId(m2).value;
      PresentAfterInsert(s, m, m2, m3, cols);
    }
  }

  /** A text player name without a word stops the name columns with IndexError. */
  lemma NoWordFails(m: Frame)
    requires Aligned(m) && "player_name" in m.columns && !NamesHaveWords(m)
    ensures AddNameColumns(m) == Err(IndexError)
  {
  }

  /** The merge adds only position and jersey_number. */
  lemma MergedColumn(s: Frame, m: Frame, c: string)
    requires m.columns == s.columns + ["position", "jersey_number"]
    requires c != "position" && c != "jersey_number"
    ensures c in m.columns <==> c in s.columns
  {
  }

  /** The name columns add no id column. */
  lemma IdAfterNames(s: Frame, m: Frame, m2: Frame)
    requires m.columns == s.columns + ["position", "jersey_number"]
    requires forall c :: c in m2.columns <==> c in m.columns || c == "nickname" || c == "image_url"
    ensures "id" in m2.columns <==> "id" in s.columns
  {
  }

  /** The card columns are all there after the id insertion exactly when each is a stats
      column or one the pipeline adds. */
  lemma PresentAfterInsert(s: Frame, m: Frame, m2: Frame, m3: Frame, cols: seq<string>)
    requires m.columns == s.columns + ["position", "jersey_number"]
    requires forall c :: c in m2.columns <==> c in m.columns || c == "nickname" || c == "image_url"
    requires m3.columns == ["id"] + m2.columns
    ensures (forall c :: c in cols ==> c in m3.columns) <==> CardColumnsPresent(s, cols)
  {
  }

  /** Card row `j` comes from merged row `j`: under every stats column it shows, save
      nickname and image_url, it holds the cell of that merged row's stats part. */
  lemma CardRowsOfMerged(s: Frame, cols: seq<string>, m: Frame, m2: Frame, m3: Frame, card: Frame)
    requires m.columns == s.columns + ["position", "jersey_number"] && Aligned(m) && "id" !in s.columns
    requires AddNameColumns(m) == Ok(m2) && InsertId(m2) == Ok(m3) && Select(m3, cols) == Ok(card)
    ensures RowsCarry(s, m.rows, cols, card.rows)
  {
    var n := |s.columns|;
    forall j | 0 <= j < |m.rows|
      ensures n <= |m.rows[j]| && Carries(s, m.rows[j][..n], cols, card.rows[j])
    {
      CardRowOfMerged(s, cols, m, m2, m3, card, j);
    }
  }

  /** One row of `CardRowsOfMerged`, one cell at a time. */
  lemma CardRowOfMerged(s: Frame, cols: seq<string>, m: Frame, m2: Frame, m3: Frame, card: Frame, j: nat)
    requires m.columns == s.columns + ["position", "jersey_number"] && Aligned(m) && "id" !in s.columns
    requires AddNameColumns(m) == Ok(m2) && InsertId(m2) == Ok(m3) && Select(m3, cols) == Ok(card)
    requires j < |m.rows|
    ensures |s.columns| <= |m.rows[j]| && Carries(s, m.rows[j][..|s.columns|], cols, card.rows[j])
  {
    var n := |s.columns|;
    assert m.rows[j] in m.rows;
    forall k | 0 <= k < |cols| && cols[k] in s.columns && cols[k] != "nickname" && cols[k] != "image_url"
      ensures card.rows[j][k] == Get(s.columns, m.rows[j][..n], cols[k])
    {
      CardCellOfMerged(s, cols, m, m2, m3, card, j, k);
    }
  }

  /** One cell of `CardRowOfMerged`. */
  lemma CardCellOfMerged(s: Frame, cols: seq<string>, m: Frame, m2: Frame, m3: Frame, card: Frame, j: nat, k: nat)
    requires m.columns == s.columns + ["position", "jersey_number"] && Aligned(m) && "id" !in s.columns
    requires AddNameColumns(m) == Ok(m2) && InsertId(m2) == Ok(m3) && Select(m3, cols) == Ok(card)
    requires j < |m.rows| && k < |cols| && cols[k] in s.columns && cols[k] != "nickname" && cols[k] != "image_url"
    ensures |s.columns| <= |m.rows[j]| && card.rows[j][k] == Get(s.columns, m.rows[j][..|s.columns|], cols[k])
  {
    var c := cols[k];
    assert m.rows[j] in m.rows;
    InsertIdGet(m2, j, c);
    AddNameColumnsOther(m, j, c);
    PrefixGet(s.columns, ["position", "jersey_number"], m.rows[j], c);
  }

  /** Under every name but nickname and image_url a row answers as before the two
      assignments. */
  lemma AddNameColumnsOther(m: Frame, i: nat, c: string)
    requires Aligned(m) && AddNameColumns(m).Ok? && i < |m.rows|
    requires c != "nickname" && c != "image_url"
    ensures var g := AddNameColumns(m).value; Get(g.columns, g.rows[i], c) == Get(m.columns, m.rows[i], c)
  {
    var names := ColumnCells(m, "player_name");
    var nicks := NicknameColumn(names).value;
    var urls := seq(|names|, i requires 0 <= i < |names| => ImageUrl(names[i]));
    assert AddNameColumns(m).value == SetColumn(SetColumn(m, "nickname", nicks), "image_url", urls);
    SetTwoColumns(m, "nickname", nicks, "image_url", urls, i, c);
  }

  /** Each row of `crows` carries the stats part of the row of `mrows` at its position. */
  predicate RowsCarry(s: Frame, mrows: seq<seq<Cell>>, cols: seq<string>, crows: seq<seq<Cell>>) {
    |crows| == |mrows| &&
    forall j :: 0 <= j < |mrows| ==> |s.columns| <= |mrows[j]| && Carries(s, mrows[j][..|s.columns|], cols, crows[j])
  }

  /** Some row of `crows` carries the stats row `row`. */
  predicate CarriedIn(s: Frame, row: seq<Cell>, cols: seq<string>, crows: seq<seq<Cell>>) {
    exists j :: 0 <= j < |crows| && Carries(s, row, cols, crows[j])
  }

  /** Card row `o` carries some stats row. */
  predicate CarriesStats(s: Frame, cols: seq<string>, o: seq<Cell>) {
    exists i :: 0 <= i < |s.rows| && Carries(s, s.rows[i], cols, o)
  }

  /** Rows that each carry their merged row's stats part, over merged rows that cover the
      stats rows, carry every stats row and only stats rows. */
  lemma CarriesThroughCover(s: Frame, mrows: seq<seq<Cell>>, cols: seq<string>, crows: seq<seq<Cell>>)
    requires Covers(s, mrows) && RowsCarry(s, mrows, cols, crows)
    ensures forall i :: 0 <= i < |s.rows| ==> CarriedIn(s, s.rows[i], cols, crows)
    ensures forall j :: 0 <= j < |crows| ==> CarriesStats(s, cols, crows[j])
  {
    var n := |s.columns|;
    forall i | 0 <= i < |s.rows|
      ensures CarriedIn(s, s.rows[i], cols, crows)
    {
      assert Heads(s.rows[i], n, mrows);
      var j :| 0 <= j < |mrows| && n <= |mrows[j]| && mrows[j][..n] == s.rows[i];
      assert Carries(s, mrows[j][..n], cols, crows[j]);
    }
    forall j | 0 <= j < |crows|
      ensures CarriesStats(s, cols, crows[j])
    {
      assert FromStats(s, mrows[j]);
      var i :| 0 <= i < |s.rows| && mrows[j][..n] == s.rows[i];
      assert Carries(s, mrows[j][..n], cols, crows[j]);
    }
  }

  /** Every card row carries the cells of one stats row, and every stats row is carried
      by some card row: the card loses and invents no player. */
  lemma CardOfRenamedCarries(s: Frame, ro: Frame, cols: seq<string>)
    requires Aligned(s) && Aligned(ro) && ro.columns == RosterColumns
    requires |cols| > 33 && cols[0] == "id" && cols[2] == "player_name" && cols[3] == "nickname" && cols[33] == "image_url"
    requires CardOfRenamed(s, ro, cols).Ok?
    ensures var card := CardOfRenamed(s, ro, cols).value;
      (forall i :: 0 <= i < |s.rows| ==> CarriedIn(s, s.rows[i], cols, card.rows)) &&
      (forall j :: 0 <= j < |card.rows| ==> CarriesStats(s, cols, card.rows[j]))
  {
    var m, m2, m3 := CardOfRenamedSteps(s, ro, cols);
    CarriesFromSteps(s, ro, cols, m, m2, m3);
  }

  /** The carrying facts from the frames of each step. */
  lemma CarriesFromSteps(s: Frame, ro: Frame, cols: seq<string>, m: Frame, m2: Frame, m3: Frame)
    requires Aligned(s) && Aligned(ro) && ro.columns == RosterColumns
    requires LeftMerge(s, ro) == Ok(m) && AddNameColumns(m) == Ok(m2) && InsertId(m2) == Ok(m3)
    requires Select(m3, cols).Ok?
    ensures var card := Select(m3, cols).value;
      (forall i :: 0 <= i < |s.rows| ==> CarriedIn(s, s.rows[i], cols, card.rows)) &&
      (forall j :: 0 <= j < |card.rows| ==> CarriesStats(s, cols, card.rows[j]))
  {
    MergeCovers(s, ro, m);
    IdAfterNames(s, m, m2);
    CarriesGivenCover(s, cols, m, m2, m3);
  }

  /** The carrying facts once the merge is known to cover the stats. */
  lemma CarriesGivenCover(s: Frame, cols: seq<string>, m: Frame, m2: Frame, m3: Frame)
    requires m.columns == s.columns + ["position", "jersey_number"] && Aligned(m) && Covers(s, m.rows)
    requires "id" !in s.columns
    requires AddNameColumns(m) == Ok(m2) && InsertId(m2) == Ok(m3) && Select(m3, cols).Ok?
    ensures var card := Select(m3, cols).value;
      (forall i :: 0 <= i < |s.rows| ==> CarriedIn(s, s.rows[i], cols, card.rows)) &&
      (forall j :: 0 <= j < |card.rows| ==> CarriesStats(s, cols, card.rows[j]))
  {
    var card := Select(m3, cols).value;
    CardRowsOfMerged(s, cols, m, m2, m3, card);
    CarriesThroughCover(s, m.rows, cols, card.rows);
  }

  /** A card that was made went through the merge, the name columns, the id and the
      projection. */
  lemma CardOfRenamedSteps(s: Frame, ro: Frame, cols: seq<string>) returns (m: Frame, m2: Frame, m3: Frame)
    requires Aligned(s) && Aligned(ro) && ro.columns == RosterColumns
    requires |cols| > 33 && cols[0] == "id" && cols[2] == "player_name" && cols[3] == "nickname" && cols[33] == "image_url"
    requires CardOfRenamed(s, ro, cols).Ok?
    ensures LeftMerge(s, ro) == Ok(m) && AddNameColumns(m) == Ok(m2) && InsertId(m2) == Ok(m3)
    ensures Select(m3, cols) == CardOfRenamed(s, ro, cols)
  {
    m := LeftMerge(s, ro).value;
    m2 := AddNameColumns(m).value;
    m3 := InsertId(m2).value;
  }
}
