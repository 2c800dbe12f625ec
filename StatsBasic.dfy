/** Get_Wolves_Player_Stats_Basic.py: the full-season player table augmented with the
    last-5 and last-10 game tables, whose columns carry a suffix. The endpoint's tables
    (or the exception it raised) are parameters; only column names are tracked through
    the merge. */
module StatsBasic {
  import opened Wrappers
  import opened Lists
  import opened Frames

  const PlayerId: string := "PLAYER_ID"

  // ---------------------------------------------------------------------------
  // get_player_stats_df

  /** The first table that has a PLAYER_ID column. */
  function FirstPlayerTable(frames: seq<Frame>): (r: Option<Frame>)
    ensures r.Some? ==> r.value in frames && PlayerId in r.value.columns
    ensures r.None? <==> forall f :: f in frames ==> PlayerId !in f.columns
  {
    if |frames| == 0 then None
    else if PlayerId in frames[0].columns then Some(frames[0])
    else FirstPlayerTable(frames[1..])
  }

  /** The scan of get_player_stats_df: the table it returns sits at an index before which
      no table has a PLAYER_ID column. */
  method GetPlayerStatsTable(frames: seq<Frame>) returns (r: Option<Frame>, ghost at: nat)
    ensures r == FirstPlayerTable(frames)
    ensures r.Some? ==>
      at < |frames| && frames[at] == r.value && forall j :: 0 <= j < at ==> PlayerId !in frames[j].columns
  {
    var i := 0;
    while i < |frames|
      invariant 0 <= i <= |frames|
      invariant forall j :: 0 <= j < i ==> PlayerId !in frames[j].columns
      invariant FirstPlayerTable(frames) == FirstPlayerTable(frames[i..])
    {
      if PlayerId in frames[i].columns {
        return Some(frames[i]), i;
      }
      assert frames[i..][1..] == frames[i + 1..];
      i := i + 1;
    }
    return None, 0;
  }

  // ---------------------------------------------------------------------------
  // fetch_player_stats

  datatype Param = IntParam(i: int) | TextParam(t: string)

  /** The request parameters; last_n_games only when a count is given. */
  function RequestParams(teamId: int, season: string, lastNGames: Option<int>): (p: map<string, Param>)
    ensures "last_n_games" in p <==> lastNGames.Some?
    ensures lastNGames.Some? ==> p["last_n_games"] == IntParam(lastNGames.value)
    ensures "team_id" in p && p["team_id"] == IntParam(teamId)
    ensures "season" in p && p["season"] == TextParam(season)
  {
    var base := map[
      "team_id" := IntParam(teamId),
      "season" := TextParam(season),
      "season_type_all_star" := TextParam("Regular Season"),
      "per_mode_detailed" := TextParam("PerGame")];
    match lastNGames
    case None => base
    case Some(n) => base["last_n_games" := IntParam(n)]
  }

  /** The last-n request is the full-season request plus last_n_games and nothing else. */
  lemma PartialRequestExtendsFull(teamId: int, season: string, n: int)
    ensures RequestParams(teamId, season, Some(n)) == RequestParams(teamId, season, None)["last_n_games" := IntParam(n)]
    ensures RequestParams(teamId, season, Some(n)).Keys == RequestParams(teamId, season, None).Keys + {"last_n_games"}
  {
  }

  /** fetch_player_stats on the endpoint's answer: the player table, or an empty frame
      when there is none or the call raised. */
  function FetchPlayerStats(response: Result<seq<Frame>>): (f: Frame)
    ensures f == EmptyFrame || PlayerId in f.columns
    ensures response.Err? ==> f == EmptyFrame
    ensures response.Ok? && FirstPlayerTable(response.value).Some? ==> f == FirstPlayerTable(response.value).value
  {
    match response
    case Err(_) => EmptyFrame
    case Ok(frames) =>
      match FirstPlayerTable(frames)
      case None => EmptyFrame
      case Some(df) => df
  }

  // ---------------------------------------------------------------------------
  // rename_columns_for_suffix

  /** The columns after renaming, for the originals `done` processed in order: each one
      outside the join columns renames every column currently carrying its name. */
  function SuffixFold(columns: seq<string>, done: seq<string>, suffix: string, join: seq<string>): (r: seq<string>)
    ensures |r| == |columns|
  {
    if |done| == 0 then columns
    else
      var col := done[|done| - 1];
      var prev := SuffixFold(columns, done[..|done| - 1], suffix, join);
      if col in join then prev else Rename(prev, col, col + "_" + suffix)
  }

  /** rename_columns_for_suffix: the loop over the original columns renames the copy in
      place; cells do not move. */
  method RenameForSuffix(df: Frame, suffix: string, join: seq<string>) returns (renamed: Frame)
    ensures renamed.rows == df.rows
    ensures renamed.columns == SuffixFold(df.columns, df.columns, suffix, join)
  {
    renamed := df;
    for i := 0 to |df.columns|
      invariant renamed.rows == df.rows
      invariant renamed.columns == SuffixFold(df.columns, df.columns[..i], suffix, join)
    {
      assert df.columns[..i + 1][..i] == df.columns[..i];
      var col := df.columns[i];
      if col !in join {
        renamed := RenameColumnAnyway(renamed, col, col + "_" + suffix);
      }
    }
    assert df.columns[..|df.columns|] == df.columns;
  }

  /** `rename(columns={from: to}, inplace=True)` with no check for an existing `to`. */
  function RenameColumnAnyway(f: Frame, from: string, to: string): (g: Frame)
    ensures g.rows == f.rows && g.columns == Rename(f.columns, from, to)
  {
    Frame(Rename(f.columns, from, to), f.rows)
  }

  /** No column name is another column name plus "_" + suffix. */
  predicate NoSuffixClash(columns: seq<string>, suffix: string) {
    forall a, b :: a in columns && b in columns ==> a != b + "_" + suffix
  }

  /** Without such a clash the loop appends the suffix to every non-join column, leaves
      join columns alone, and keeps the count and order of the columns. */
  lemma SuffixAppended(columns: seq<string>, suffix: string, join: seq<string>)
    requires NoSuffixClash(columns, suffix)
    ensures var r := SuffixFold(columns, columns, suffix, join);
      |r| == |columns| && forall k :: 0 <= k < |columns| ==>
        r[k] == if columns[k] in join then columns[k] else columns[k] + "_" + suffix
  {
    SuffixPrefix(columns, |columns|, suffix, join);
    assert columns[..|columns|] == columns;
  }

  lemma {:induction false} SuffixPrefix(columns: seq<string>, i: nat, suffix: string, join: seq<string>)
    requires NoSuffixClash(columns, suffix) && i <= |columns|
    ensures var r := SuffixFold(columns, columns[..i], suffix, join);
      forall k :: 0 <= k < |columns| ==>
        r[k] == if columns[k] !in join && columns[k] in columns[..i] then columns[k] + "_" + suffix else columns[k]
  {
    if i > 0 {
      SuffixPrefix(columns, i - 1, suffix, join);
      var col := columns[i - 1];
      var prev := SuffixFold(columns, columns[..i - 1], suffix, join);
      var r := SuffixFold(columns, columns[..i], suffix, join);
      assert columns[..i][..i - 1] == columns[..i - 1];
      assert r == if col in join then prev else Rename(prev, col, col + "_" + suffix);
      assert columns[..i] == columns[..i - 1] + [col];
      forall k | 0 <= k < |columns|
        ensures r[k] == if columns[k] !in join && columns[k] in columns[..i] then columns[k] + "_" + suffix else columns[k]
      {
        assert columns[k] in columns[..i] <==> columns[k] in columns[..i - 1] || columns[k] == col;
        if col !in join && columns[k] !in join && columns[k] in columns[..i - 1] {
          assert col in columns && columns[k] in columns;
          assert prev[k] != col;
        }
      }
    }
  }

  /** With a clash the suffix is applied twice: columns "A" and "A_x" both become "A_x_x". */
  lemma SuffixClashExample()
    ensures SuffixFold(["A", "A_x"], ["A", "A_x"], "x", ["PLAYER_ID"]) == ["A_x_x", "A_x_x"]
  {
    var cols := ["A", "A_x"];
    var join := ["PLAYER_ID"];
    assert cols[..2] == cols && cols[..2][..1] == ["A"] && ["A"][..0] == [];
    assert "A" + "_" + "x" == "A_x";
    assert "A_x" + "_" + "x" == "A_x_x";
    assert "A" != "PLAYER_ID" && "A_x" != "PLAYER_ID" && "A" != "A_x";
    var once := SuffixFold(cols, ["A"], "x", join);
    assert once == Rename(cols, "A", "A_x");
    assert once == ["A_x", "A_x"];
    assert SuffixFold(cols, cols, "x", join) == Rename(once, "A_x", "A_x_x");
  }

  // ---------------------------------------------------------------------------
  // main: the two left merges

  /** The columns of `left.merge(right, on=key)`: overlapping non-key names get "_x" on
      the left and "_y" on the right; a side without the key raises KeyError. */
  function MergeColumns(left: seq<string>, right: seq<string>, key: string): (r: Result<seq<string>>)
    ensures r.Err? <==> key !in left || key !in right
    ensures r.Err? ==> r.error == KeyError
    ensures r.Ok? ==> |r.value| == |left| + |Without(right, key, key)| && key in r.value
  {
    if key !in left || key !in right then Err(KeyError)
    else
      var kept := Without(right, key, key);
      var cols := seq(|left|, k requires 0 <= k < |left| =>
          if left[k] != key && left[k] in right then left[k] + "_x" else left[k])
        + seq(|kept|, k requires 0 <= k < |kept| => if kept[k] in left then kept[k] + "_y" else kept[k]);
      var at :| 0 <= at < |left| && left[at] == key;
      assert cols[at] == key;
      Ok(cols)
  }

  /** main as written: nothing when the full-season table is empty; otherwise the columns
      of the two left merges. */
  method MergeStatsAsWritten(full: Result<seq<Frame>>, last5: Result<seq<Frame>>, last10: Result<seq<Frame>>)
    returns (r: Result<Option<seq<string>>>)
    ensures IsEmpty(FetchPlayerStats(full)) ==> r == Ok(None)
    ensures PlayerId !in FetchPlayerStats(last5).columns && !IsEmpty(FetchPlayerStats(full)) ==> r == Err(KeyError)
  {
    var dfFull := FetchPlayerStats(full);
    if IsEmpty(dfFull) {
      return Ok(None);
    }
    var df5 := RenameForSuffix(FetchPlayerStats(last5), "last5", [PlayerId]);
    var df10 := RenameForSuffix(FetchPlayerStats(last10), "last10", [PlayerId]);
    KeyKept(FetchPlayerStats(last5).columns, "last5");
    KeyKept(FetchPlayerStats(last10).columns, "last10");
    var m1 := MergeColumns(dfFull.columns, df5.columns, PlayerId);
    if m1.Err? {
      return Err(m1.error);
    }
    var m2 := MergeColumns(m1.value, df10.columns, PlayerId);
    if m2.Err? {
      return Err(m2.error);
    }
    return Ok(Some(m2.value));
  }

  /** The join column survives the suffix loop, and no other column takes its name. */
  lemma KeyKept(columns: seq<string>, suffix: string)
    requires suffix in {"last5", "last10"}
    ensures PlayerId in SuffixFold(columns, columns, suffix, [PlayerId]) <==> PlayerId in columns
  {
    KeyKeptPrefix(columns, |columns|, suffix);
    assert columns[..|columns|] == columns;
    var r := SuffixFold(columns, columns, suffix, [PlayerId]);
    if PlayerId in columns {
      var k :| 0 <= k < |columns| && columns[k] == PlayerId;
      assert r[k] == PlayerId;
    }
    if PlayerId in r {
      var k :| 0 <= k < |r| && r[k] == PlayerId;
      assert columns[k] == PlayerId;
    }
  }

  lemma {:induction false} KeyKeptPrefix(columns: seq<string>, i: nat, suffix: string)
    requires suffix in {"last5", "last10"} && i <= |columns|
    ensures var r := SuffixFold(columns, columns[..i], suffix, [PlayerId]);
      forall k :: 0 <= k < |columns| ==> (r[k] == PlayerId <==> columns[k] == PlayerId)
  {
    if i > 0 {
      KeyKeptPrefix(columns, i - 1, suffix);
      var col := columns[i - 1];
      var prev := SuffixFold(columns, columns[..i - 1], suffix, [PlayerId]);
      assert columns[..i][..i - 1] == columns[..i - 1];
      if col != PlayerId {
        var to := col + "_" + suffix;
        assert to[|to| - 1] == suffix[|suffix| - 1] != PlayerId[|PlayerId| - 1];
        assert SuffixFold(columns, columns[..i], suffix, [PlayerId]) == Rename(prev, col, to);
      }
    }
  }

  /** A partial table is joined only when it has the key; otherwise its columns are
      left out and the full-season table goes on unchanged. */
  function MergeIfKeyed(left: seq<string>, right: seq<string>): (r: Result<seq<string>>)
    requires PlayerId in left
    ensures r.Ok? && PlayerId in r.value
    ensures PlayerId !in right ==> r.value == left
  {
    if PlayerId in right then MergeColumns(left, right, PlayerId) else Ok(left)
  }

  /** main with a failed partial fetch tolerated: never raises, and stops only when the
      full-season table is empty. */
  method MergeStats(full: Result<seq<Frame>>, last5: Result<seq<Frame>>, last10: Result<seq<Frame>>)
    returns (r: Result<Option<seq<string>>>)
    ensures r.Ok?
    ensures r.value.None? <==> IsEmpty(FetchPlayerStats(full))
    ensures r.value.Some? ==> PlayerId in r.value.value
  {
    var dfFull := FetchPlayerStats(full);
    if IsEmpty(dfFull) {
      return Ok(None);
    }
    var df5 := RenameForSuffix(FetchPlayerStats(last5), "last5", [PlayerId]);
    var df10 := RenameForSuffix(FetchPlayerStats(last10), "last10", [PlayerId]);
    var m1 := MergeIfKeyed(dfFull.columns, df5.columns);
    var m2 := MergeIfKeyed(m1.value, df10.columns);
    return Ok(Some(m2.value));
  }
}
