/** The Timberwolves' latest game and its box score copied into SQL Server
    (test_connection_without_nba_api.py): the Minnesota games of the league schedule, the
    most recent one on or before today, the Minnesota side of its box score, one
    all-text record per player, and the player_stats table replaced by those records. */
module LatestGame {
  import opened Wrappers
  import opened Text
  import opened Frames
  import opened BoxScore

  /** A calendar date, as `strptime(gdte, '%Y-%m-%d')` yields it. */
  datatype Date = Date(year: int, month: int, day: int)

  /** `a <= b` on datetimes at midnight: year, then month, then day. */
  predicate DateLe(a: Date, b: Date) {
    a.year < b.year || (a.year == b.year && (a.month < b.month || (a.month == b.month && a.day <= b.day)))
  }

  lemma DateLeTotal(a: Date, b: Date)
    ensures DateLe(a, b) || DateLe(b, a)
    ensures DateLe(a, b) && DateLe(b, a) ==> a == b
  {
  }

  /** One game of a month's `g` list; a missing `gid`, `gdte`, `h.ta` or `v.ta` is None. */
  datatype ScheduleGame = ScheduleGame(gid: Option<string>, gdte: Option<Date>, home: Option<string>, away: Option<string>)

  /** One entry of `lscd`: its `mscd.g` games (an absent list is empty). */
  datatype Month = Month(games: seq<ScheduleGame>)

  /** The dict appended for a Minnesota game. */
  datatype WolvesGame = WolvesGame(gameId: Option<string>, date: Option<Date>, homeTeam: Option<string>, awayTeam: Option<string>)

  predicate IsWolvesGame(g: ScheduleGame) {
    g.home == Some("MIN") || g.away == Some("MIN")
  }

  function Entry(g: ScheduleGame): WolvesGame {
    WolvesGame(g.gid, g.gdte, g.home, g.away)
  }

  /** The Minnesota games of one month, in schedule order. */
  function MonthWolvesGames(gs: seq<ScheduleGame>): (ws: seq<WolvesGame>)
    ensures |ws| <= |gs|
  {
    if |gs| == 0 then []
    else
      var n := |gs| - 1;
      MonthWolvesGames(gs[..n]) + (if IsWolvesGame(gs[n]) then [Entry(gs[n])] else [])
  }

  /** The Minnesota games of the whole schedule, month after month. */
  function Collected(months: seq<Month>): seq<WolvesGame> {
    if |months| == 0 then []
    else
      var n := |months| - 1;
      Collected(months[..n]) + MonthWolvesGames(months[n].games)
  }

  /** Every collected game is a Minnesota game of the month list. */
  lemma {:induction false} MonthWolvesGamesSound(gs: seq<ScheduleGame>)
    ensures forall w :: w in MonthWolvesGames(gs) ==> exists k :: 0 <= k < |gs| && IsWolvesGame(gs[k]) && w == Entry(gs[k])
  {
    if |gs| > 0 {
      var n := |gs| - 1;
      MonthWolvesGamesSound(gs[..n]);
      forall w | w in MonthWolvesGames(gs[..n])
        ensures exists k :: 0 <= k < |gs| && IsWolvesGame(gs[k]) && w == Entry(gs[k])
      {
        var k :| 0 <= k < n && IsWolvesGame(gs[..n][k]) && w == Entry(gs[..n][k]);
        assert gs[..n][k] == gs[k];
      }
    }
  }

  /** No Minnesota game of a month is missed. */
  lemma {:induction false} MonthWolvesGamesComplete(gs: seq<ScheduleGame>, k: nat)
    requires k < |gs| && IsWolvesGame(gs[k])
    ensures Entry(gs[k]) in MonthWolvesGames(gs)
  {
    var n := |gs| - 1;
    if k < n {
      assert gs[..n][k] == gs[k];
      MonthWolvesGamesComplete(gs[..n], k);
    }
  }

  /** Every game the schedule lists with MIN at home or away is collected, and nothing else. */
  lemma {:induction false} CollectedExactly(months: seq<Month>)
    ensures forall m, k :: 0 <= m < |months| && 0 <= k < |months[m].games| && IsWolvesGame(months[m].games[k]) ==>
      Entry(months[m].games[k]) in Collected(months)
    ensures forall w :: w in Collected(months) ==> w.homeTeam == Some("MIN") || w.awayTeam == Some("MIN")
  {
    if |months| > 0 {
      var n := |months| - 1;
      CollectedExactly(months[..n]);
      forall m, k | 0 <= m < |months| && 0 <= k < |months[m].games| && IsWolvesGame(months[m].games[k])
        ensures Entry(months[m].games[k]) in Collected(months)
      {
        if m < n {
          assert months[..n][m] == months[m];
        } else {
          MonthWolvesGamesComplete(months[m].games, k);
        }
      }
      MonthWolvesGamesSound(months[n].games);
    }
  }

  /** The nested loop over months and their games, appending each Minnesota game. */
  method CollectWolvesGames(months: seq<Month>) returns (games: seq<WolvesGame>)
    ensures games == Collected(months)
  {
    games := [];
    for i := 0 to |months|
      invariant games == Collected(months[..i])
    {
      assert months[..i + 1][..i] == months[..i];
      var gs := months[i].games;
      var before := games;
      for j := 0 to |gs|
        invariant games == before + MonthWolvesGames(gs[..j])
      {
        assert gs[..j + 1][..j] == gs[..j];
        var g := gs[j];
        if g.home == Some("MIN") || g.away == Some("MIN") {
          games := games + [WolvesGame(g.gid, g.gdte, g.home, g.away)];
        }
      }
      assert gs[..|gs|] == gs;
    }
    assert months[..|months|] == months;
  }

  /** Every collected game has a date. */
  predicate AllDated(games: seq<WolvesGame>) {
    forall i :: 0 <= i < |games| ==> games[i].date.Some?
  }

  /** The position of the game the stable descending sort followed by the scan picks: the
      latest date on or before today, and among games of that date the first in schedule
      order. */
  function Latest(games: seq<WolvesGame>, today: Date): (r: Option<nat>)
    requires AllDated(games)
    ensures r.None? <==> forall i :: 0 <= i < |games| ==> !DateLe(games[i].date.value, today)
    ensures r.Some? ==> r.value < |games| && DateLe(games[r.value].date.value, today)
  {
    if |games| == 0 then None
    else
      var n := |games| - 1;
      var best := Latest(games[..n], today);
      assert forall i :: 0 <= i < n ==> games[..n][i] == games[i];
      var d := games[n].date.value;
      if DateLe(d, today) && (best.None? || (DateLe(games[best.value].date.value, d) && games[best.value].date.value != d))
      then Some(n)
      else best
  }

  /** The picked game is no earlier than any game on or before today, and every game
      before it in schedule order has another date. */
  lemma {:induction false} LatestIsMostRecent(games: seq<WolvesGame>, today: Date)
    requires AllDated(games) && Latest(games, today).Some?
    ensures var k := Latest(games, today).value;
      (forall i :: 0 <= i < |games| && DateLe(games[i].date.value, today) ==> DateLe(games[i].date.value, games[k].date.value)) &&
      (forall i :: 0 <= i < k ==> games[i].date != games[k].date)
  {
    var n := |games| - 1;
    var k := Latest(games, today).value;
    var prefix := games[..n];
    assert forall i :: 0 <= i < n ==> prefix[i] == games[i];
    var best := Latest(prefix, today);
    if best.Some? {
      LatestIsMostRecent(prefix, today);
    }
    forall i | 0 <= i < |games| && DateLe(games[i].date.value, today)
      ensures DateLe(games[i].date.value, games[k].date.value)
    {
      DateLeTotal(games[i].date.value, games[k].date.value);
      if i < n && best.Some? {
        DateLeTotal(games[i].date.value, games[best.value].date.value);
      }
    }
  }

  /** `get_latest_game_id`: None when the schedule request fails or no Minnesota game is
      on or before today; the picked game's `gid` (itself possibly None) otherwise;
      TypeError from `strptime` when a collected game has no date. */
  method GetLatestGameId(status: int, months: seq<Month>, today: Date) returns (r: Result<Option<string>>)
    ensures status != 200 ==> r == Ok(None)
    ensures status == 200 && !AllDated(Collected(months)) ==> r == Err(TypeError)
    ensures status == 200 && AllDated(Collected(months)) ==>
      r == Ok(match Latest(Collected(months), today)
              case None => None
              case Some(k) => Collected(months)[k].gameId)
  {
    if status != 200 {
      return Ok(None);
    }
    var games := CollectWolvesGames(months);
    if !AllDated(games) {
      return Err(TypeError);
    }
    var k := Latest(games, today);
    if k.None? {
      return Ok(None);
    }
    r := Ok(games[k.value].gameId);
  }

  // ---------------------------------------------------------------------------
  // The box score and the all-text records

  /** The roster used: home when its tricode is MIN, the away roster otherwise. */
  function WolvesPlayers(home: Team, away: Team): (ps: seq<Player>)
    ensures home.teamTricode == "MIN" ==> ps == home.players
    ensures home.teamTricode != "MIN" ==> ps == away.players
  {
    if home.teamTricode == "MIN" then home.players else away.players
  }

  /** `astype(str)` on one record: every value replaced by its text. */
  function AsText(r: Record, floatText: real -> string): (t: Record)
    ensures forall c :: c in t <==> c in r
    ensures forall c :: c in r ==> t[c] == TextCell(CellText(r[c], floatText))
  {
    map c | c in r :: TextCell(CellText(r[c], floatText))
  }

  /** An integer cell becomes its decimal text, which `int()` reads back. */
  lemma AsTextIntReadsBack(r: Record, c: string, n: int, floatText: real -> string)
    requires c in r && r[c] == IntCell(n)
    ensures c in AsText(r, floatText) && AsText(r, floatText)[c] == TextCell(IntToString(n))
    ensures ParseInt(IntToString(n)) == Some(n)
  {
    IntStringRoundTrip(n);
  }

  /** The counts survive the conversion: `int()` of each text gives the count back. */
  lemma AsTextCountsReadBack(p: Player, floatText: real -> string)
    ensures var t := AsText(LiveRecord(p, "3pt"), floatText);
      var s := p.statistics;
      "PTS" in t && t["PTS"] == TextCell(IntToString(s.points)) && ParseInt(IntToString(s.points)) == Some(s.points as int) &&
      "REB" in t && t["REB"] == TextCell(IntToString(s.reboundsTotal)) && ParseInt(IntToString(s.reboundsTotal)) == Some(s.reboundsTotal as int) &&
      "plusMinusPoints" in t && t["plusMinusPoints"] == TextCell(IntToString(s.plusMinusPoints)) &&
      ParseInt(IntToString(s.plusMinusPoints)) == Some(s.plusMinusPoints)
  {
    var r := LiveRecord(p, "3pt");
    var s := p.statistics;
    LiveRecordShots(p, "3pt");
    AsTextIntReadsBack(r, "PTS", s.points, floatText);
    AsTextIntReadsBack(r, "REB", s.reboundsTotal, floatText);
    AsTextIntReadsBack(r, "plusMinusPoints", s.plusMinusPoints, floatText);
  }

  /** The shooting lines are text already and stay as they are. */
  lemma AsTextKeepsShots(p: Player, floatText: real -> string)
    ensures var t := AsText(LiveRecord(p, "3pt"), floatText);
      var s := p.statistics;
      "FGs" in t && t["FGs"] == TextCell(MadeAttempted(s.fieldGoalsMade, s.fieldGoalsAttempted)) &&
      "3pt" in t && t["3pt"] == TextCell(MadeAttempted(s.threePointersMade, s.threePointersAttempted))
  {
    LiveRecordShots(p, "3pt");
  }

  /** `DELETE FROM player_stats`, then one INSERT of `tuple(row)` per record: the values
      are placed by position, so the table ends up holding one `StoredAsWritten` row per
      record, in order (BLK, STL and TOV receive the steals, turnovers and blocks, as
      `StoredAsWrittenShift` states). */
  method ReplaceTable(records: seq<Record>) returns (table: seq<map<string, Cell>>)
    requires forall i :: 0 <= i < |records| ==> HasLiveColumns(records[i])
    ensures |table| == |records|
    ensures forall i :: 0 <= i < |records| ==> table[i] == StoredAsWritten(records[i])
  {
    table := [];
    for i := 0 to |records|
      invariant |table| == i
      invariant forall j :: 0 <= j < i ==> table[j] == StoredAsWritten(records[j])
    {
      table := table + [StoredAsWritten(records[i])];
    }
  }

  /** The game id `get_latest_game_id` returns on a successful schedule request. */
  function LatestId(months: seq<Month>, today: Date): Option<string>
    requires AllDated(Collected(months))
  {
    match Latest(Collected(months), today)
    case None => None
    case Some(k) => Collected(months)[k].gameId
  }

  /** The script: nothing is written (None) when no usable game id is found (`not game_id`
      also rejects an empty id) or the box-score request fails; otherwise the table holds
      one all-text row per player of the Minnesota side, in roster order, placed by
      position as the INSERT is written. */
  method Run(status: int, months: seq<Month>, today: Date, boxStatus: int, home: Team, away: Team,
             floatText: real -> string)
    returns (r: Result<Option<seq<map<string, Cell>>>>)
    ensures r.Err? <==> status == 200 && !AllDated(Collected(months))
    ensures r.Err? ==> r.error == TypeError
    ensures r.Ok? ==> (r.value.Some? <==>
      status == 200 && AllDated(Collected(months)) && boxStatus == 200 &&
      LatestId(months, today).Some? && LatestId(months, today).value != "")
    ensures r.Ok? && r.value.Some? ==>
      var players := WolvesPlayers(home, away);
      |r.value.value| == |players| &&
      forall i :: 0 <= i < |players| ==> r.value.value[i] == StoredAsWritten(AsText(LiveRecord(players[i], "3pt"), floatText))
  {
    var gid := GetLatestGameId(status, months, today);
    if gid.Err? {
      return Err(gid.error);
    }
    if gid.value.None? || gid.value.value == "" || boxStatus != 200 {
      return Ok(None);
    }
    var players := if home.teamTricode == "MIN" then home.players else away.players;
    var records := LiveRecords(players, "3pt");
    var texts := seq(|records|, i requires 0 <= i < |records| => AsText(records[i], floatText));
    var table := ReplaceTable(texts);
    r := Ok(Some(table));
  }
}
