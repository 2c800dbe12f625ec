/** comparison_model.py: which players of a career table are eligible for comparison
    with a player's first N seasons, the length guard of compute_similarity, the
    self-exclusion for current players, and the ordering and top-10 cut of the results.
    The standardisation and distance arithmetic of compute_similarity is floating point
    and is left out: its overall score is a parameter. */
module Comparison {
  import opened Lists
  import opened Wrappers

  /** A required stat's value in a row. */
  datatype Value = Finite(x: real) | Null | PosInf | NegInf

  /** A career-table row: the player, the SEASON_NUMBER and the values of the required stats. */
  datatype StatRow = StatRow(player: string, seasonNumber: int, stats: seq<Value>)

  /** `df[df['PLAYER_NAME'] == name]`. */
  function RowsOf(rows: seq<StatRow>, name: string): (r: seq<StatRow>)
    ensures |r| <= |rows|
    ensures forall x :: x in r <==> x in rows && x.player == name
  {
    if |rows| == 0 then []
    else
      var n := |rows| - 1;
      assert forall x :: x in rows <==> x in rows[..n] || x == rows[n] by {
        assert rows == rows[..n] + [rows[n]];
      }
      RowsOf(rows[..n], name) + (if rows[n].player == name then [rows[n]] else [])
  }

  predicate SeasonsSorted(rows: seq<StatRow>) {
    forall i, j :: 0 <= i < j < |rows| ==> rows[i].seasonNumber <= rows[j].seasonNumber
  }

  function InsertBySeason(x: StatRow, rows: seq<StatRow>): (r: seq<StatRow>)
    ensures multiset(r) == multiset(rows) + multiset{x} && |r| == |rows| + 1
  {
    if |rows| == 0 then [x]
    else if x.seasonNumber < rows[0].seasonNumber then [x] + rows
    else
      assert rows == [rows[0]] + rows[1..];
      [rows[0]] + InsertBySeason(x, rows[1..])
  }

  lemma {:induction false} InsertBySeasonSorted(x: StatRow, rows: seq<StatRow>)
    requires SeasonsSorted(rows)
    ensures SeasonsSorted(InsertBySeason(x, rows))
  {
    if |rows| > 0 && x.seasonNumber >= rows[0].seasonNumber {
      InsertBySeasonSorted(x, rows[1..]);
      var tail := InsertBySeason(x, rows[1..]);
      forall j | 0 < j < |tail| + 1
        ensures rows[0].seasonNumber <= ([rows[0]] + tail)[j].seasonNumber
      {
        assert tail[j - 1] in multiset(tail);
        assert tail[j - 1] == x || tail[j - 1] in rows[1..];
      }
    }
  }

  /** `sort_values('SEASON_NUMBER')`, keeping rows with equal numbers in table order. */
  function SortBySeason(rows: seq<StatRow>): (r: seq<StatRow>)
    ensures multiset(r) == multiset(rows) && |r| == |rows|
    ensures SeasonsSorted(r)
  {
    if |rows| == 0 then []
    else
      var init, last := rows[..|rows| - 1], rows[|rows| - 1];
      assert multiset(rows) == multiset(init) + multiset{last} by {
        assert rows == init + [last];
      }
      InsertBySeasonSorted(last, SortBySeason(init));
      InsertBySeason(last, SortBySeason(init))
  }

  /** The player's rows ordered by season, as the comparisons read them. */
  function PlayerSeasons(rows: seq<StatRow>, name: string): seq<StatRow> {
    SortBySeason(RowsOf(rows, name))
  }

  /** Neither null nor infinite in any required stat. */
  predicate Complete(r: StatRow) {
    forall v :: v in r.stats ==> v.Finite?
  }

  /** The checks of get_valid_players for one name: at least n rows, the first n season
      numbers are exactly 1..n, and none of those rows has a null or infinite stat. */
  predicate Eligible(rows: seq<StatRow>, name: string, n: nat) {
    var ps := PlayerSeasons(rows, name);
    |ps| >= n
    && (forall i :: 0 <= i < n ==> ps[i].seasonNumber == i + 1)
    && (forall i :: 0 <= i < n ==> Complete(ps[i]))
  }

  function Names(rows: seq<StatRow>): (r: seq<string>)
    ensures |r| == |rows| && forall i :: 0 <= i < |rows| ==> r[i] == rows[i].player
  {
    seq(|rows|, i requires 0 <= i < |rows| => rows[i].player)
  }

  /** The eligible names among `names`, in order. */
  function EligibleAmong(names: seq<string>, rows: seq<StatRow>, n: nat): seq<string> {
    if |names| == 0 then []
    else
      var k := |names| - 1;
      EligibleAmong(names[..k], rows, n) + (if Eligible(rows, names[k], n) then [names[k]] else [])
  }

  /** get_valid_players: `n` is the number of seasons of the selected player. */
  method GetValidPlayers(rows: seq<StatRow>, n: nat) returns (valid: seq<string>)
    ensures valid == EligibleAmong(Unique(Names(rows)), rows, n)
  {
    var names := Unique(Names(rows));
    valid := [];
    var i := 0;
    while i < |names|
      invariant 0 <= i <= |names|
      invariant valid == EligibleAmong(names[..i], rows, n)
    {
      assert names[..i + 1][..i] == names[..i];
      var ok := CheckPlayer(rows, names[i], n);
      if ok {
        valid := valid + [names[i]];
      }
      i := i + 1;
    }
    assert names[..i] == names;
  }

  /** The body of get_valid_players' loop for one name: false (`continue`) at the first
      check that fails. */
  method CheckPlayer(rows: seq<StatRow>, name: string, n: nat) returns (ok: bool)
    ensures ok == Eligible(rows, name, n)
  {
    var ps := PlayerSeasons(rows, name);
    if |ps| < n {
      return false;
    }
    var consecutive := forall k :: 0 <= k < n ==> ps[k].seasonNumber == k + 1;
    if !consecutive {
      return false;
    }
    var complete := forall k :: 0 <= k < n ==> Complete(ps[k]);
    if !complete {
      return false;
    }
    return true;
  }

  /** The eligible names are exactly the names of the list that pass the checks. */
  lemma {:induction false} EligibleAmongMembers(names: seq<string>, rows: seq<StatRow>, n: nat)
    ensures forall p :: p in EligibleAmong(names, rows, n) <==> p in names && Eligible(rows, p, n)
  {
    if |names| > 0 {
      var k := |names| - 1;
      EligibleAmongMembers(names[..k], rows, n);
      assert names == names[..k] + [names[k]];
      var prev := EligibleAmong(names[..k], rows, n);
      var last := names[k];
      assert EligibleAmong(names, rows, n) == prev + (if Eligible(rows, last, n) then [last] else []);
      assert forall p :: p in names <==> p in names[..k] || p == last;
    }
  }

  /** A sublist of a duplicate-free list is duplicate-free. */
  lemma {:induction false} EligibleAmongDistinct(names: seq<string>, rows: seq<StatRow>, n: nat)
    requires Distinct(names)
    ensures Distinct(EligibleAmong(names, rows, n))
  {
    if |names| > 0 {
      var k := |names| - 1;
      DistinctInit(names);
      EligibleAmongDistinct(names[..k], rows, n);
      EligibleAmongMembers(names[..k], rows, n);
      DistinctLast(names);
      if Eligible(rows, names[k], n) {
        AppendDistinct(EligibleAmong(names[..k], rows, n), names[k]);
        assert EligibleAmong(names, rows, n) == EligibleAmong(names[..k], rows, n) + [names[k]];
      } else {
        assert EligibleAmong(names, rows, n) == EligibleAmong(names[..k], rows, n);
      }
    }
  }

  lemma {:induction false} DistinctInit(xs: seq<string>)
    requires Distinct(xs) && |xs| > 0
    ensures Distinct(xs[..|xs| - 1])
  {
    if |xs| > 1 {
      DistinctInit(xs[1..]);
      assert xs[1..][..|xs| - 2] == xs[..|xs| - 1][1..];
    }
  }

  lemma {:induction false} DistinctLast(xs: seq<string>)
    requires Distinct(xs) && |xs| > 0
    ensures xs[|xs| - 1] !in xs[..|xs| - 1]
  {
    if |xs| > 1 {
      DistinctLast(xs[1..]);
      assert xs[..|xs| - 1] == [xs[0]] + xs[1..][..|xs| - 2];
    }
  }

  /** Every valid player is a player of the table, passes the checks and appears once. */
  lemma ValidPlayersAreEligible(rows: seq<StatRow>, n: nat)
    ensures var valid := EligibleAmong(Unique(Names(rows)), rows, n);
      Distinct(valid) && forall p :: p in valid <==> (exists r :: r in rows && r.player == p) && Eligible(rows, p, n)
  {
    var names := Names(rows);
    EligibleAmongMembers(Unique(names), rows, n);
    EligibleAmongDistinct(Unique(names), rows, n);
    forall p
      ensures p in names <==> exists r :: r in rows && r.player == p
    {
      if p in names {
        var i :| 0 <= i < |names| && names[i] == p;
        assert rows[i] in rows;
      }
      if r :| r in rows && r.player == p {
        var i :| 0 <= i < |rows| && rows[i] == r;
        assert names[i] == p;
      }
    }
  }

  /** compute_similarity's guard: None when the candidate has fewer seasons than the
      selected player; otherwise the candidate's first N seasons, which are what the
      score is computed from. */
  function ComparedSeasons(selected: seq<StatRow>, candidate: seq<StatRow>): (r: Option<seq<StatRow>>)
    ensures r.None? <==> |candidate| < |selected|
    ensures r.Some? ==> |r.value| == |selected| && r.value == candidate[..|selected|]
  {
    if |candidate| < |selected| then None else Some(candidate[..|selected|])
  }

  /** A valid player never trips the guard, and the seasons compared are its seasons
      1..N, all complete. */
  lemma EligibleCandidateCompared(rows: seq<StatRow>, name: string, selected: seq<StatRow>)
    requires Eligible(rows, name, |selected|)
    ensures ComparedSeasons(selected, PlayerSeasons(rows, name)).Some?
    ensures var c := ComparedSeasons(selected, PlayerSeasons(rows, name)).value;
      forall i :: 0 <= i < |c| ==> c[i].seasonNumber == i + 1 && Complete(c[i]) && c[i].player == name
  {
    var ps := PlayerSeasons(rows, name);
    forall i | 0 <= i < |selected|
      ensures ps[i].player == name
    {
      assert ps[i] in multiset(RowsOf(rows, name));
    }
  }

  /** The candidates compared: the valid current players other than the selected one,
      or every valid Hall-of-Fame player (the self-check is absent there). */
  function Candidates(valid: seq<string>, self: string, skipSelf: bool): (r: seq<string>)
    ensures forall p :: p in r <==> p in valid && (skipSelf ==> p != self)
  {
    if |valid| == 0 then []
    else
      var k := |valid| - 1;
      assert forall x :: x in valid <==> x in valid[..k] || x == valid[k] by {
        assert valid == valid[..k] + [valid[k]];
      }
      Candidates(valid[..k], self, skipSelf) + (if skipSelf && valid[k] == self then [] else [valid[k]])
  }

  /** A (player, overall score) pair of the results. */
  datatype Scored = Scored(player: string, overall: real)

  predicate Ascending(xs: seq<Scored>) {
    forall i, j :: 0 <= i < j < |xs| ==> xs[i].overall <= xs[j].overall
  }

  function InsertByScore(x: Scored, xs: seq<Scored>): (r: seq<Scored>)
    ensures multiset(r) == multiset(xs) + multiset{x} && |r| == |xs| + 1
  {
    if |xs| == 0 then [x]
    else if x.overall < xs[0].overall then [x] + xs
    else
      assert xs == [xs[0]] + xs[1..];
      [xs[0]] + InsertByScore(x, xs[1..])
  }

  lemma {:induction false} InsertByScoreSorted(x: Scored, xs: seq<Scored>)
    requires Ascending(xs)
    ensures Ascending(InsertByScore(x, xs))
  {
    if |xs| > 0 && x.overall >= xs[0].overall {
      InsertByScoreSorted(x, xs[1..]);
      var tail := InsertByScore(x, xs[1..]);
      forall j | 0 < j < |tail| + 1
        ensures xs[0].overall <= ([xs[0]] + tail)[j].overall
      {
        assert tail[j - 1] in multiset(tail);
        assert tail[j - 1] == x || tail[j - 1] in xs[1..];
      }
    }
  }

  /** `sorted(results.items(), key=lambda x: x[1]['overall'])` (a stable sort). */
  function SortByScore(xs: seq<Scored>): (r: seq<Scored>)
    ensures multiset(r) == multiset(xs) && |r| == |xs|
    ensures Ascending(r)
  {
    if |xs| == 0 then []
    else
      var init, last := xs[..|xs| - 1], xs[|xs| - 1];
      assert multiset(xs) == multiset(init) + multiset{last} by {
        assert xs == init + [last];
      }
      InsertByScoreSorted(last, SortByScore(init));
      InsertByScore(last, SortByScore(init))
  }

  /** The results of one comparison list: every candidate scored (`overall` stands for
      compute_similarity's score), ordered best first. */
  function Ranked(cands: seq<string>, overall: string -> real): seq<Scored> {
    SortByScore(seq(|cands|, i requires 0 <= i < |cands| => Scored(cands[i], overall(cands[i]))))
  }

  /** `sorted_results[:10]`. */
  function TopTen(xs: seq<Scored>): (r: seq<Scored>)
    ensures |r| == if |xs| < 10 then |xs| else 10
    ensures r == xs[..|r|]
  {
    if |xs| < 10 then xs else xs[..10]
  }

  /** The ten printed or saved results score no worse than any result cut off, and the
      selected player never appears among the current-player results. */
  lemma TopTenBest(valid: seq<string>, self: string, skipSelf: bool, overall: string -> real)
    ensures var ranked := Ranked(Candidates(valid, self, skipSelf), overall);
      forall i, j :: 0 <= i < |TopTen(ranked)| <= j < |ranked| ==> TopTen(ranked)[i].overall <= ranked[j].overall
    ensures skipSelf ==> forall s :: s in Ranked(Candidates(valid, self, skipSelf), overall) ==> s.player != self
  {
    var cands := Candidates(valid, self, skipSelf);
    var scored := seq(|cands|, i requires 0 <= i < |cands| => Scored(cands[i], overall(cands[i])));
    forall s | s in Ranked(cands, overall)
      ensures s.player in cands
    {
      assert s in multiset(scored);
      var i :| 0 <= i < |scored| && scored[i] == s;
    }
  }
}
