/** get_player_career_stats, defined in wolves_year_by_year_stats.py and again in
    hof_yby_stats.py with the same logic: a player's regular-season career table with
    the seasons numbered from 1, left-merged on that number with the player's advanced
    seasons ordered by age. The endpoint's table and the advanced-stats lookup are
    parameters; only the alignment of rows is modelled, not the per-game divisions. */
module Career {
  import opened Wrappers

  /** A row of the endpoint's career table (one regular season). */
  datatype SeasonRow = SeasonRow(seasonId: string, team: string, fields: seq<int>)

  /** One season of the advanced-stats lookup: the player's age and the twenty values. */
  datatype Advanced = Advanced(age: int, values: seq<real>)

  /** An advanced season with the SEASON_NUMBER it was given. */
  datatype NumberedAdvanced = NumberedAdvanced(seasonNumber: nat, values: seq<real>)

  /** A row of the returned table. `advanced` is None where the left merge found no
      match (the advanced columns are null there). */
  datatype CareerRow = CareerRow(playerId: int, playerName: string, seasonNumber: nat, season: SeasonRow,
                                 advanced: Option<seq<real>>)

  /** The returned frame; `hasAdvanced` says whether the advanced columns were merged in. */
  datatype CareerTable = CareerTable(rows: seq<CareerRow>, hasAdvanced: bool)

  predicate SortedByAge(xs: seq<Advanced>) {
    forall i, j :: 0 <= i < j < |xs| ==> xs[i].age <= xs[j].age
  }

  /** Insert `x` after every entry no older than it (which keeps equal ages in order). */
  function InsertByAge(x: Advanced, xs: seq<Advanced>): (out: seq<Advanced>)
    ensures multiset(out) == multiset(xs) + multiset{x}
    ensures |out| == |xs| + 1
  {
    if |xs| == 0 then [x]
    else if x.age < xs[0].age then [x] + xs
    else
      assert xs == [xs[0]] + xs[1..];
      [xs[0]] + InsertByAge(x, xs[1..])
  }

  lemma {:induction false} InsertByAgeSorted(x: Advanced, xs: seq<Advanced>)
    requires SortedByAge(xs)
    ensures SortedByAge(InsertByAge(x, xs))
  {
    if |xs| > 0 && x.age >= xs[0].age {
      InsertByAgeSorted(x, xs[1..]);
      var tail := InsertByAge(x, xs[1..]);
      forall j | 0 < j < |tail| + 1
        ensures xs[0].age <= ([xs[0]] + tail)[j].age
      {
        assert tail[j - 1] in multiset(tail);
        assert tail[j - 1] == x || tail[j - 1] in xs[1..];
      }
    }
  }

  /** `sorted(advanced_stats, key=lambda x: x['age'])`. */
  function SortByAge(xs: seq<Advanced>): (out: seq<Advanced>)
    ensures multiset(out) == multiset(xs) && |out| == |xs|
    ensures SortedByAge(out)
  {
    if |xs| == 0 then []
    else
      var init, last := xs[..|xs| - 1], xs[|xs| - 1];
      assert multiset(xs) == multiset(init) + multiset{last} by {
        assert xs == init + [last];
      }
      InsertByAgeSorted(last, SortByAge(init));
      InsertByAge(last, SortByAge(init))
  }

  /** The entries of `enumerate(advanced_stats_sorted, 1)`. */
  function Numbered(sorted: seq<Advanced>): (out: seq<NumberedAdvanced>)
    ensures |out| == |sorted|
  {
    seq(|sorted|, i requires 0 <= i < |sorted| => NumberedAdvanced(i + 1, sorted[i].values))
  }

  /** The loop building advanced_stats_list. */
  method NumberAdvanced(sorted: seq<Advanced>) returns (list: seq<NumberedAdvanced>)
    ensures list == Numbered(sorted)
    ensures forall i :: 0 <= i < |list| ==> list[i].seasonNumber == i + 1 && list[i].values == sorted[i].values
  {
    list := [];
    var idx := 1;
    while idx <= |sorted|
      invariant 1 <= idx <= |sorted| + 1
      invariant |list| == idx - 1
      invariant forall i :: 0 <= i < |list| ==> list[i] == NumberedAdvanced(i + 1, sorted[i].values)
    {
      list := list + [NumberedAdvanced(idx, sorted[idx - 1].values)];
      idx := idx + 1;
    }
  }

  /** The values of the first advanced entry carrying SEASON_NUMBER `n`. */
  function Lookup(list: seq<NumberedAdvanced>, n: nat): (r: Option<seq<real>>)
    ensures r.None? <==> forall e :: e in list ==> e.seasonNumber != n
    ensures r.Some? ==>
      exists k :: 0 <= k < |list| && list[k].seasonNumber == n && list[k].values == r.value
        && forall j :: 0 <= j < k ==> list[j].seasonNumber != n
  {
    if |list| == 0 then None
    else if list[0].seasonNumber == n then Some(list[0].values)
    else
      var r := Lookup(list[1..], n);
      assert forall e :: e in list <==> e == list[0] || e in list[1..];
      if r.Some? then
        var k :| 0 <= k < |list[1..]| && list[1..][k].seasonNumber == n && list[1..][k].values == r.value
          && forall j :: 0 <= j < k ==> list[1..][j].seasonNumber != n;
        assert list[k + 1] == list[1..][k];
        assert forall j :: 1 <= j < k + 1 ==> list[j] == list[1..][j - 1];
        r
      else r
  }

  /** `pd.merge(df, advanced_df, on='SEASON_NUMBER', how='left')` with unique numbers on
      the right: every left row kept in order, with its match's values or nulls. */
  function LeftMerge(rows: seq<CareerRow>, list: seq<NumberedAdvanced>): (out: seq<CareerRow>)
    ensures |out| == |rows|
    ensures forall i :: 0 <= i < |rows| ==> out[i] == rows[i].(advanced := Lookup(list, rows[i].seasonNumber))
  {
    seq(|rows|, i requires 0 <= i < |rows| => rows[i].(advanced := Lookup(list, rows[i].seasonNumber)))
  }

  /** The career rows numbered 1..n and tagged with the player's id and name. */
  function NumberSeasons(id: int, name: string, seasons: seq<SeasonRow>): (rows: seq<CareerRow>)
    ensures |rows| == |seasons|
    ensures forall i :: 0 <= i < |rows| ==>
      rows[i] == CareerRow(id, name, i + 1, seasons[i], None)
  {
    seq(|seasons|, i requires 0 <= i < |seasons| => CareerRow(id, name, i + 1, seasons[i], None))
  }

  /** get_player_career_stats: None when the career call fails or returns no seasons;
      the advanced seasons are merged only when the lookup returned some. */
  function CareerStats(id: int, name: string, career: Result<seq<SeasonRow>>, advanced: Option<seq<Advanced>>)
    : (r: Option<CareerTable>)
    ensures r.None? <==> career.Err? || |career.value| == 0
    ensures r.Some? ==>
      |r.value.rows| == |career.value|
      && (r.value.hasAdvanced <==> advanced.Some? && |advanced.value| > 0)
      && forall i :: 0 <= i < |r.value.rows| ==>
        r.value.rows[i].seasonNumber == i + 1 && r.value.rows[i].season == career.value[i]
        && r.value.rows[i].playerId == id && r.value.rows[i].playerName == name
  {
    match career
    case Err(_) => None
    case Ok(seasons) =>
      if |seasons| == 0 then None
      else
        var rows := NumberSeasons(id, name, seasons);
        if advanced.None? || |advanced.value| == 0 then Some(CareerTable(rows, false))
        else Some(CareerTable(LeftMerge(rows, Numbered(SortByAge(advanced.value))), true))
  }

  lemma NumberedLookup(sorted: seq<Advanced>, n: nat)
    ensures Lookup(Numbered(sorted), n) == if 1 <= n <= |sorted| then Some(sorted[n - 1].values) else None
  {
    var list := Numbered(sorted);
    if 1 <= n <= |sorted| {
      assert list[n - 1].seasonNumber == n;
      var k :| 0 <= k < |list| && list[k].seasonNumber == n && list[k].values == Lookup(list, n).value;
      assert k == n - 1;
    } else {
      assert forall e :: e in list ==> e.seasonNumber != n;
    }
  }

  /** The i-th season of the career (0-based) carries the i-th youngest advanced season
      when there is one, and nulls otherwise; advanced seasons beyond the career's
      length are dropped. */
  lemma AdvancedAlignedByAge(id: int, name: string, career: Result<seq<SeasonRow>>, advanced: Option<seq<Advanced>>)
    requires CareerStats(id, name, career, advanced).Some?
    ensures var t := CareerStats(id, name, career, advanced).value;
      forall i :: 0 <= i < |t.rows| ==>
        t.rows[i].advanced == if t.hasAdvanced && i < |advanced.value| then Some(SortByAge(advanced.value)[i].values) else None
  {
    var t := CareerStats(id, name, career, advanced).value;
    if t.hasAdvanced {
      var sorted := SortByAge(advanced.value);
      forall i | 0 <= i < |t.rows|
        ensures t.rows[i].advanced == if i < |advanced.value| then Some(sorted[i].values) else None
      {
        NumberedLookup(sorted, i + 1);
      }
    }
  }
}
