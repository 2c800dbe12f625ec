/** The per-team join of play-by-play score rows with a team's game list, and the
    score margin seen from that team's side (play_by_play.py:59-86 and its variant
    pbp_test_delete_me.py). */
module ScoreMerge {
  import opened Text
  import opened Lists

  /** Which score column belongs to the team: the `home_away` column. */
  datatype Side = ScoreHome | ScoreAway

  /** A matchup written "X vs. Y" is a home game; "X @ Y" (or anything else) is away. */
  function HomeAway(matchup: string): (side: Side)
    ensures side == ScoreHome <==> Contains(matchup, "vs.")
  {
    if Contains(matchup, "vs.") then ScoreHome else ScoreAway
  }

  /** The team's own score minus the opponent's. */
  function ScoreDiff(side: Side, scoreHome: int, scoreAway: int): int {
    match side
    case ScoreHome => scoreHome - scoreAway
    case ScoreAway => scoreAway - scoreHome
  }

  /** Home and away perspectives on the same score are negations of each other, and a
      side whose score is ahead sees a positive margin. */
  lemma PerspectivesNegate(scoreHome: int, scoreAway: int)
    ensures ScoreDiff(ScoreHome, scoreHome, scoreAway) == -ScoreDiff(ScoreAway, scoreHome, scoreAway)
    ensures ScoreDiff(HomeAway("MIN vs. BOS"), scoreHome, scoreAway) > 0 <==> scoreHome > scoreAway
    ensures ScoreDiff(HomeAway("MIN @ BOS"), scoreHome, scoreAway) > 0 <==> scoreAway > scoreHome
  {
    var home := "MIN vs. BOS";
    assert OccursAt(home, "vs.", 4);
    ContainsIff(home, "vs.");
    var away := "MIN @ BOS";
    assert forall i :: 0 <= i < |away| ==> away[i] != 'v';
    forall j | 0 <= j && j + 3 <= |away|
      ensures !OccursAt(away, "vs.", j)
    {
      assert away[j..j + 3][0] == away[j];
    }
    ContainsIff(away, "vs.");
  }

  /** One play-by-play event with its game id and running score. */
  datatype ScoreRow = ScoreRow(gameId: string, period: int, clock: string, scoreHome: int, scoreAway: int)

  /** One row of the team game list. */
  datatype GameRow = GameRow(team: string, gameId: string, matchup: string)

  /** A joined row with the computed `home_away` and `score_diff` columns. */
  datatype Merged = Merged(row: ScoreRow, game: GameRow, side: Side, diff: int)

  /** How game ids are normalised before the join: play_by_play.py strips leading zeros
      (`str.lstrip('0')`), pbp_test_delete_me.py strips surrounding whitespace. */
  datatype IdRule = StripZeros | StripSpace

  function NormalizeId(rule: IdRule, id: string): string {
    match rule
    case StripZeros => LStripChar(id, '0')
    case StripSpace => Strip(id)
  }

  /** Every game the team played, in list order. */
  function TeamGames(games: seq<GameRow>, team: string): (gs: seq<GameRow>)
    ensures forall g :: g in gs <==> g in games && g.team == team
  {
    if |games| == 0 then []
    else TeamGames(games[..|games| - 1], team) + (if games[|games| - 1].team == team then [games[|games| - 1]] else [])
  }

  /** The joined rows for one score row: one per matching game, in game order. */
  function MatchRow(rule: IdRule, r: ScoreRow, gs: seq<GameRow>): (ms: seq<Merged>)
    ensures forall m :: m in ms <==> m.row == r && m.game in gs && Joined(rule, m)
  {
    if |gs| == 0 then []
    else
      var g := gs[|gs| - 1];
      var side := HomeAway(g.matchup);
      MatchRow(rule, r, gs[..|gs| - 1])
        + (if NormalizeId(rule, r.gameId) == NormalizeId(rule, g.gameId)
           then [Merged(r, g, side, ScoreDiff(side, r.scoreHome, r.scoreAway))] else [])
  }

  /** What a joined row satisfies: equal normalised ids, and the side and margin taken
      from the game's matchup. */
  predicate Joined(rule: IdRule, m: Merged) {
    NormalizeId(rule, m.row.gameId) == NormalizeId(rule, m.game.gameId)
    && m.side == HomeAway(m.game.matchup)
    && m.diff == ScoreDiff(m.side, m.row.scoreHome, m.row.scoreAway)
  }

  /** The inner join `pd.merge(df, games_filtered, left_on='gameid', right_on='GAME_ID')`:
      score rows in order, each followed by its matching games. */
  function MergeRows(rule: IdRule, rows: seq<ScoreRow>, gs: seq<GameRow>): (ms: seq<Merged>)
    ensures forall m :: m in ms <==> m.row in rows && m.game in gs && Joined(rule, m)
  {
    if |rows| == 0 then []
    else MergeRows(rule, rows[..|rows| - 1], gs) + MatchRow(rule, rows[|rows| - 1], gs)
  }

  /** The concatenation over teams `ts` of each team's joined rows. */
  function MergeTeams(rule: IdRule, rows: seq<ScoreRow>, games: seq<GameRow>, ts: seq<string>): seq<Merged> {
    if |ts| == 0 then []
    else MergeTeams(rule, rows, games, ts[..|ts| - 1]) + MergeRows(rule, rows, TeamGames(games, ts[|ts| - 1]))
  }

  /** All teams in first-appearance order (`games['TEAM_ABBREVIATION'].unique()`). */
  function Teams(games: seq<GameRow>): seq<string> {
    Unique(TeamNames(games))
  }

  function TeamNames(games: seq<GameRow>): (ns: seq<string>)
    ensures |ns| == |games| && forall i :: 0 <= i < |games| ==> ns[i] == games[i].team
  {
    if |games| == 0 then [] else TeamNames(games[..|games| - 1]) + [games[|games| - 1].team]
  }

  /** The team loop. With `skipEmpty` it also skips a team with no games or an empty join
      (pbp_test_delete_me.py:27-29, 43-45); without it every join is concatenated
      (play_by_play.py:64-86). */
  method MergeAllTeams(rule: IdRule, rows: seq<ScoreRow>, games: seq<GameRow>, skipEmpty: bool)
    returns (all: seq<Merged>)
    ensures all == MergeTeams(rule, rows, games, Teams(games))
  {
    var ts := Teams(games);
    all := [];
    var i := 0;
    while i < |ts|
      invariant 0 <= i <= |ts|
      invariant all == MergeTeams(rule, rows, games, ts[..i])
    {
      MergeTeamsStep(rule, rows, games, ts, i);
      var gs := TeamGames(games, ts[i]);
      var merged := MergeRows(rule, rows, gs);
      if |gs| == 0 {
        NoGamesNoRows(rule, rows);
      }
      if !(skipEmpty && (|gs| == 0 || |merged| == 0)) {
        all := all + merged;
      }
      i := i + 1;
    }
    assert ts[..|ts|] == ts;
  }

  /** One more team appends that team's joined rows. */
  lemma MergeTeamsStep(rule: IdRule, rows: seq<ScoreRow>, games: seq<GameRow>, ts: seq<string>, i: nat)
    requires i < |ts|
    ensures MergeTeams(rule, rows, games, ts[..i + 1]) ==
      MergeTeams(rule, rows, games, ts[..i]) + MergeRows(rule, rows, TeamGames(games, ts[i]))
  {
    assert ts[..i + 1][..i] == ts[..i];
  }

  lemma {:induction false} NoGamesNoRows(rule: IdRule, rows: seq<ScoreRow>)
    ensures MergeRows(rule, rows, []) == []
  {
    if |rows| > 0 {
      NoGamesNoRows(rule, rows[..|rows| - 1]);
    }
  }

  /** Every output row is a genuine join of one score row with one of its team's games,
      carrying that game's side and margin; and every such pair appears. */
  lemma {:induction false} MergeTeamsMembers(rule: IdRule, rows: seq<ScoreRow>, games: seq<GameRow>, ts: seq<string>, m: Merged)
    ensures m in MergeTeams(rule, rows, games, ts) <==>
      m.row in rows && m.game in games && m.game.team in ts && Joined(rule, m)
  {
    if |ts| > 0 {
      MergeTeamsMembers(rule, rows, games, ts[..|ts| - 1], m);
      var last := ts[|ts| - 1];
      assert m.game.team in ts <==> m.game.team in ts[..|ts| - 1] || m.game.team == last;
    }
  }

  /** Game ids that differ only in leading zeros join under play_by_play.py's rule. */
  lemma LeadingZerosIgnored(id: string)
    ensures NormalizeId(StripZeros, "00" + id) == NormalizeId(StripZeros, id)
  {
    assert ("00" + id)[1..] == "0" + id;
    assert ("0" + id)[1..] == id;
  }
  /** Game ids that differ only in surrounding whitespace join under pbp_test_delete_me.py's rule. */
  lemma SurroundingSpaceIgnored(id: string)
    requires |id| > 0 ==> !IsSpace(id[0]) && !IsSpace(id[|id| - 1])
    ensures NormalizeId(StripSpace, " " + id + "\n") == NormalizeId(StripSpace, id) == id
  {
    var padded := " " + id + "\n";
    assert IsSpace(' ') && IsSpace('\n');
    assert padded[1..] == id + "\n";
    LStripNoEdge(id);
    RStripNoEdge(id);
    if |id| > 0 {
      LStripNoEdge(id + "\n");
      assert LStrip(padded) == id + "\n";
      assert (id + "\n")[..|id|] == id;
    } else {
      assert LStrip(padded) == LStrip("\n") == LStrip("");
    }
  }
}
