/** get_player_records.py (TimberwolvesRecords): for each of the ten players with the
    most minutes and each of fifteen stat categories, the player's current game, season
    and career values next to their personal records. The endpoint tables are
    parameters: a player's game log (latest game first) and career table (one row per
    season, latest last) as the column of the stat in question. */
module PlayerRecords {
  import opened Wrappers
  import opened Text
  import opened Frames

  /** `self.stat_categories`. */
  const StatCategories: seq<string> :=
    ["PTS", "AST", "REB", "STL", "BLK", "FGM", "FGA", "FG3M", "FG3A", "FTM", "FTA", "OREB", "DREB", "TOV", "PF"]

  function Min(a: int, b: int): int { if a <= b then a else b }

  /** `df.nlargest(n, c)` (keep='first'): `n` rows (or all), largest `c` first, none of
      which any left-out row must come ahead of; rows with equal `c` come in table order,
      and at a tie on the cut the earliest rows are the ones kept. */
  function NLargest(f: Frame, n: nat, c: string): (top: seq<seq<Cell>>)
    ensures |top| == Min(n, |f.rows|)
    ensures multiset(top) <= multiset(f.rows)
    ensures forall x, y :: x in top && y in multiset(f.rows) - multiset(top) ==>
      !Ahead(Get(f.columns, y, c), Get(f.columns, x, c))
    ensures SortedDesc(f.columns, top, c)
    ensures forall v :: KeyedAs(f.columns, top, c, v) <= KeyedAs(f.columns, f.rows, c, v)
  {
    var s := SortRowsDesc(f.columns, f.rows, c);
    var k := Min(n, |s|);
    SortedPrefixFacts(f.columns, f.rows, k, c);
    s[..k]
  }

  /** The first `k` rows of the descending sort: sorted, outranked by no row left out,
      and for every value the first rows holding it. */
  lemma SortedPrefixFacts(columns: seq<string>, rows: seq<seq<Cell>>, k: nat, c: string)
    requires k <= |rows|
    ensures var s := SortRowsDesc(columns, rows, c);
      multiset(s[..k]) <= multiset(rows)
      && (forall x, y :: x in s[..k] && y in multiset(rows) - multiset(s[..k]) ==>
        !Ahead(Get(columns, y, c), Get(columns, x, c)))
      && SortedDesc(columns, s[..k], c)
      && forall v :: KeyedAs(columns, s[..k], c, v) <= KeyedAs(columns, rows, c, v)
  {
    var s := SortRowsDesc(columns, rows, c);
    SortRowsDescSorted(columns, rows, c);
    SortedPrefixLargest(columns, s, k, c);
    assert s == s[..k] + s[k..];
    assert multiset(s[..k]) <= multiset(rows) by {
      assert multiset(s) == multiset(s[..k]) + multiset(s[k..]);
    }
    forall v
      ensures KeyedAs(columns, s[..k], c, v) <= KeyedAs(columns, rows, c, v)
    {
      SortRowsDescStable(columns, rows, c, v);
      KeyedAsAppend(columns, s[..k], s[k..], c, v);
    }
  }

  /** A prefix of a descending order holds rows that no row after it must come ahead of. */
  lemma SortedPrefixLargest(columns: seq<string>, s: seq<seq<Cell>>, k: nat, c: string)
    requires SortedDesc(columns, s, c) && k <= |s|
    ensures forall x, y :: x in s[..k] && y in multiset(s) - multiset(s[..k]) ==>
      !Ahead(Get(columns, y, c), Get(columns, x, c))
  {
    assert s == s[..k] + s[k..];
    assert multiset(s) - multiset(s[..k]) == multiset(s[k..]) by {
      assert multiset(s) == multiset(s[..k]) + multiset(s[k..]);
    }
    forall x, y | x in s[..k] && y in multiset(s) - multiset(s[..k])
      ensures !Ahead(Get(columns, y, c), Get(columns, x, c))
    {
      var i :| 0 <= i < k && s[..k][i] == x;
      assert y in s[k..];
      var j :| 0 <= j < |s| - k && s[k..][j] == y;
      assert s[i] == x && s[k + j] == y;
    }
  }

  /** get_top_10_players: the PLAYER_NAME of the ten rows with the most MIN, in the
      order `nlargest` returns them: most minutes first. */
  function TopTenPlayers(f: Frame): (names: seq<Cell>)
    ensures |names| == Min(10, |f.rows|)
    ensures var top := NLargest(f, 10, "MIN");
      (forall i :: 0 <= i < |names| ==> names[i] == Get(f.columns, top[i], "PLAYER_NAME"))
      && forall i, j :: 0 <= i < j < |names| ==>
        !Ahead(Get(f.columns, top[j], "MIN"), Get(f.columns, top[i], "MIN"))
  {
    var top := NLargest(f, 10, "MIN");
    seq(|top|, i requires 0 <= i < |top| => Get(f.columns, top[i], "PLAYER_NAME"))
  }

  /** Each returned name is that of a row which no unselected row out-plays in minutes. */
  lemma TopTenByMinutes(f: Frame, i: nat)
    requires i < |TopTenPlayers(f)|
    ensures exists x ::
      x in multiset(f.rows) && TopTenPlayers(f)[i] == Get(f.columns, x, "PLAYER_NAME")
      && forall y :: y in multiset(f.rows) - multiset(NLargest(f, 10, "MIN")) ==>
        !Ahead(Get(f.columns, y, "MIN"), Get(f.columns, x, "MIN"))
  {
    var top := NLargest(f, 10, "MIN");
    var x := top[i];
    assert x in multiset(top);
  }

  /** The column total (`.sum()`), 0 for no rows. */
  function Sum(xs: seq<int>): int {
    if |xs| == 0 then 0 else Sum(xs[..|xs| - 1]) + xs[|xs| - 1]
  }

  function Max(xs: seq<int>): (m: int)
    requires |xs| > 0
    ensures m in xs && forall x :: x in xs ==> x <= m
  {
    if |xs| == 1 then xs[0]
    else
      var rest := Max(xs[..|xs| - 1]);
      assert forall x :: x in xs ==> x in xs[..|xs| - 1] || x == xs[|xs| - 1];
      if xs[|xs| - 1] > rest then xs[|xs| - 1] else rest
  }

  /** The game / season / all_time triple of the current values and of the records. */
  datatype Triple = Triple(game: int, season: int, allTime: int)

  /** _get_player_current_stats: the latest game's value, the latest season's value and
      the career sum, each 0 for an empty table. */
  function CurrentStats(gameLog: seq<int>, career: seq<int>): (t: Triple)
    ensures t.game == if |gameLog| == 0 then 0 else gameLog[0]
    ensures t.season == if |career| == 0 then 0 else career[|career| - 1]
    ensures t.allTime == Sum(career)
  {
    Triple(if |gameLog| == 0 then 0 else gameLog[0],
           if |career| == 0 then 0 else career[|career| - 1],
           if |career| == 0 then 0 else Sum(career))
  }

  /** _get_personal_records: the best game, the best season and the career sum, each 0
      for an empty table. */
  function PersonalRecords(gameLog: seq<int>, career: seq<int>): (t: Triple)
    ensures |gameLog| > 0 ==> t.game in gameLog && forall g :: g in gameLog ==> g <= t.game
    ensures |career| > 0 ==> t.season in career && forall s :: s in career ==> s <= t.season
    ensures |gameLog| == 0 ==> t.game == 0
    ensures |career| == 0 ==> t.season == 0
    ensures t.allTime == Sum(career)
  {
    Triple(if |gameLog| == 0 then 0 else Max(gameLog),
           if |career| == 0 then 0 else Max(career),
           if |career| == 0 then 0 else Sum(career))
  }

  /** Both all_time values are the same career sum; on non-empty tables the records are
      at least the current values. */
  lemma RecordsBoundCurrent(gameLog: seq<int>, career: seq<int>)
    ensures CurrentStats(gameLog, career).allTime == PersonalRecords(gameLog, career).allTime
    ensures |gameLog| > 0 ==> PersonalRecords(gameLog, career).game >= CurrentStats(gameLog, career).game
    ensures |career| > 0 ==> PersonalRecords(gameLog, career).season >= CurrentStats(gameLog, career).season
  {
    if |gameLog| > 0 {
      assert gameLog[0] in gameLog;
    }
    if |career| > 0 {
      assert career[|career| - 1] in career;
    }
  }

  /** One row of the records table. */
  datatype RecordRow = RecordRow(interval: string, level: string, id: int, name: string, stat: string,
                                 current: int, record: int)

  /** What the endpoints return for one (player, stat) pair: the ids whose full name
      matches, the game-log column and the career column of the stat. */
  datatype Fetched = Fetched(matches: seq<int>, gameLog: seq<int>, career: seq<int>)

  /** get_player_records: three rows, game then season then all_time, for the first
      matching player id; IndexError when no player matches. */
  function PlayerRecordRows(name: string, stat: string, data: Fetched): (r: Result<seq<RecordRow>>)
    ensures r.Err? <==> |data.matches| == 0
    ensures r.Ok? ==>
      |r.value| == 3
      && r.value[0].interval == "game" && r.value[1].interval == "season" && r.value[2].interval == "all_time"
      && forall k :: 0 <= k < 3 ==>
        r.value[k].id == data.matches[0] && r.value[k].name == name && r.value[k].stat == Lower(stat)
        && r.value[k].level == "personal"
  {
    if |data.matches| == 0 then Err(IndexError)
    else
      var id := data.matches[0];
      var cur := CurrentStats(data.gameLog, data.career);
      var rec := PersonalRecords(data.gameLog, data.career);
      var st := Lower(stat);
      Ok([RecordRow("game", "personal", id, name, st, cur.game, rec.game),
          RecordRow("season", "personal", id, name, st, cur.season, rec.season),
          RecordRow("all_time", "personal", id, name, st, cur.allTime, rec.allTime)])
  }

  /** In the emitted rows the all_time record equals the current all_time value, and on
      non-empty tables the game and season records are at least the current values. */
  lemma RecordRowsCompare(name: string, stat: string, data: Fetched)
    requires |data.matches| > 0
    ensures var rows := PlayerRecordRows(name, stat, data).value;
      rows[2].record == rows[2].current
      && (|data.gameLog| > 0 ==> rows[0].record >= rows[0].current)
      && (|data.career| > 0 ==> rows[1].record >= rows[1].current)
  {
    RecordsBoundCurrent(data.gameLog, data.career);
  }

  /** The rows collected for one player over the stat categories, in category order. */
  function PlayerRows(name: string, stats: seq<string>, fetched: seq<Result<Fetched>>): seq<RecordRow>
    requires |fetched| == |stats|
  {
    if |stats| == 0 then []
    else
      var n := |stats| - 1;
      var one := Attempt(name, stats[n], fetched[n]);
      PlayerRows(name, stats[..n], fetched[..n]) + (if one.Ok? then one.value else [])
  }

  /** One (player, stat) attempt: a fetch failure or a lookup failure is an error. */
  function Attempt(name: string, stat: string, data: Result<Fetched>): Result<seq<RecordRow>> {
    match data
    case Err(e) => Err(e)
    case Ok(d) => PlayerRecordRows(name, stat, d)
  }

  /** The rows collected over all players, in player order. */
  function AllRows(names: seq<string>, fetched: seq<seq<Result<Fetched>>>): seq<RecordRow>
    requires |fetched| == |names| && forall p :: 0 <= p < |names| ==> |fetched[p]| == |StatCategories|
  {
    if |names| == 0 then []
    else
      var n := |names| - 1;
      AllRows(names[..n], fetched[..n]) + PlayerRows(names[n], StatCategories, fetched[n])
  }

  /** The number of (player, stat) pairs that produced records. */
  function Successes(names: seq<string>, fetched: seq<seq<Result<Fetched>>>): nat
    requires |fetched| == |names| && forall p :: 0 <= p < |names| ==> |fetched[p]| == |StatCategories|
  {
    if |names| == 0 then 0
    else
      var n := |names| - 1;
      Successes(names[..n], fetched[..n]) + PlayerSuccesses(names[n], StatCategories, fetched[n])
  }

  function PlayerSuccesses(name: string, stats: seq<string>, fetched: seq<Result<Fetched>>): nat
    requires |fetched| == |stats|
  {
    if |stats| == 0 then 0
    else
      var n := |stats| - 1;
      PlayerSuccesses(name, stats[..n], fetched[..n]) + (if Attempt(name, stats[n], fetched[n]).Ok? then 1 else 0)
  }

  /** get_all_player_records: every (player, stat) pair in order, skipping failures;
      `None` when nothing was collected. `fetched[p][s]` is what the endpoints gave for
      player p and category s. */
  method AllPlayerRecords(names: seq<string>, fetched: seq<seq<Result<Fetched>>>) returns (r: Option<seq<RecordRow>>)
    requires |fetched| == |names| && forall p :: 0 <= p < |names| ==> |fetched[p]| == |StatCategories|
    ensures r == if |AllRows(names, fetched)| == 0 then None else Some(AllRows(names, fetched))
  {
    var all: seq<RecordRow> := [];
    var p := 0;
    while p < |names|
      invariant 0 <= p <= |names|
      invariant all == AllRows(names[..p], fetched[..p])
    {
      var s := 0;
      var mine: seq<RecordRow> := [];
      while s < |StatCategories|
        invariant 0 <= s <= |StatCategories|
        invariant mine == PlayerRows(names[p], StatCategories[..s], fetched[p][..s])
      {
        var one := Attempt(names[p], StatCategories[s], fetched[p][s]);
        assert StatCategories[..s + 1][..s] == StatCategories[..s];
        assert fetched[p][..s + 1][..s] == fetched[p][..s];
        if one.Ok? {
          mine := mine + one.value;
        }
        s := s + 1;
      }
      assert StatCategories[..s] == StatCategories && fetched[p][..s] == fetched[p];
      assert names[..p + 1][..p] == names[..p] && fetched[..p + 1][..p] == fetched[..p];
      all := all + mine;
      p := p + 1;
    }
    assert names[..p] == names && fetched[..p] == fetched;
    if |all| == 0 {
      r := None;
    } else {
      r := Some(all);
    }
  }

  lemma {:induction false} PlayerRowsCount(name: string, stats: seq<string>, fetched: seq<Result<Fetched>>)
    requires |fetched| == |stats|
    ensures |PlayerRows(name, stats, fetched)| == 3 * PlayerSuccesses(name, stats, fetched)
  {
    if |stats| > 0 {
      var n := |stats| - 1;
      PlayerRowsCount(name, stats[..n], fetched[..n]);
    }
  }

  /** Every successful pair contributes its three rows, so nothing is returned exactly
      when every pair failed. */
  lemma {:induction false} AllRowsCount(names: seq<string>, fetched: seq<seq<Result<Fetched>>>)
    requires |fetched| == |names| && forall p :: 0 <= p < |names| ==> |fetched[p]| == |StatCategories|
    ensures |AllRows(names, fetched)| == 3 * Successes(names, fetched)
  {
    if |names| > 0 {
      var n := |names| - 1;
      AllRowsCount(names[..n], fetched[..n]);
      PlayerRowsCount(names[n], StatCategories, fetched[n]);
    }
  }
}
