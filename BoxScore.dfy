/** The live box score shared by the in-game scripts: the players and their statistics as
    the feed reports them, the per-player records built from them, the
    `format_data_for_player` flattening, the slot-numbered CSV header, the comma-joined
    CSV text, and the row-to-column mapping of the player_stats INSERT. */
module BoxScore {
  import opened Wrappers
  import opened Text
  import opened Frames

  /** The statistics of one player in the live box-score feed (the keys the scripts read). */
  datatype Statistics = Statistics(
    points: nat, reboundsTotal: nat, assists: nat, steals: nat, turnovers: nat, blocks: nat,
    fieldGoalsMade: nat, fieldGoalsAttempted: nat,
    threePointersMade: nat, threePointersAttempted: nat,
    plusMinusPoints: int)

  datatype Player = Player(firstName: string, familyName: string, position: string, statistics: Statistics)

  /** One side of the game: its tricode, its city and its roster in feed order. */
  datatype Team = Team(teamTricode: string, teamCity: string, players: seq<Player>)

  /** `f"{firstName} {familyName}"`. */
  function FullName(p: Player): string {
    p.firstName + " " + p.familyName
  }

  /** `f"{made}-{attempted}"`, the shooting line of a box score. */
  function MadeAttempted(made: nat, attempted: nat): string {
    NatToString(made) + "-" + NatToString(attempted)
  }

  /** The shooting line reads back: the text before its first '-' is `int()` of the makes,
      the text after it `int()` of the attempts. */
  lemma MadeAttemptedRoundTrip(made: nat, attempted: nat)
    ensures var s := MadeAttempted(made, attempted);
      Find(s, "-").Some? &&
      ParseInt(s[..Find(s, "-").value]) == Some(made) &&
      ParseInt(s[Find(s, "-").value + 1..]) == Some(attempted)
  {
    var m, a := NatToString(made), NatToString(attempted);
    var s := MadeAttempted(made, attempted);
    DashAfterDigits(m, a);
    assert s[..|m|] == m && s[|m| + 1..] == a;
    IntStringRoundTrip(made);
    IntStringRoundTrip(attempted);
    assert IntToString(made) == m && IntToString(attempted) == a;
  }

  /** The first '-' after a run of digits is the one that ends it. */
  lemma DashAfterDigits(m: string, a: string)
    requires AllDigits(m)
    ensures Find(m + "-" + a, "-") == Some(|m|)
  {
    var s := m + "-" + a;
    assert OccursAt(s, "-", |m|);
    forall j | 0 <= j < |m|
      ensures !OccursAt(s, "-", j)
    {
      assert s[j..j + 1][0] == m[j];
    }
    FindIsFirst(s, "-", |m|);
  }

  // ---------------------------------------------------------------------------
  // The ten-field player record

  /** The columns of the ten-field player record, in the order of its dict literal;
      `threeKey` is the scripts' name for the three-point column. */
  function LiveColumns(threeKey: string): seq<string> {
    ["Player", "PTS", "REB", "AST", "STL", "TOV", "BLK", "FGs", threeKey, "plusMinusPoints"]
  }

  /** The two names the scripts give the three-point column. */
  predicate ThreeKey(k: string) {
    k == "3pt" || k == "threePt"
  }

  /** The ten-field record of one player. */
  function LiveRecord(p: Player, threeKey: string): (r: Record)
    requires ThreeKey(threeKey)
    ensures "Player" in r && r["Player"] == TextCell(FullName(p))
    ensures threeKey == "3pt" ==> HasLiveColumns(r)
  {
    var s := p.statistics;
    map["Player" := TextCell(FullName(p)), "PTS" := IntCell(s.points), "REB" := IntCell(s.reboundsTotal),
        "AST" := IntCell(s.assists), "STL" := IntCell(s.steals), "TOV" := IntCell(s.turnovers),
        "BLK" := IntCell(s.blocks), "FGs" := TextCell(MadeAttempted(s.fieldGoalsMade, s.fieldGoalsAttempted)),
        threeKey := TextCell(MadeAttempted(s.threePointersMade, s.threePointersAttempted)),
        "plusMinusPoints" := IntCell(s.plusMinusPoints)]
  }

  /** The record has exactly the ten columns. */
  lemma LiveRecordKeys(p: Player, threeKey: string)
    requires ThreeKey(threeKey)
    ensures forall c :: c in LiveRecord(p, threeKey) <==> c in LiveColumns(threeKey)
  {
  }

  /** The shooting cells of the record are the made-attempted lines of the player's
      counts (each reads back with `MadeAttemptedRoundTrip`), and the counts sit under
      their short names. */
  lemma LiveRecordShots(p: Player, threeKey: string)
    requires ThreeKey(threeKey)
    ensures var r := LiveRecord(p, threeKey);
      var s := p.statistics;
      r["FGs"] == TextCell(MadeAttempted(s.fieldGoalsMade, s.fieldGoalsAttempted)) &&
      r[threeKey] == TextCell(MadeAttempted(s.threePointersMade, s.threePointersAttempted)) &&
      r["PTS"] == IntCell(s.points) && r["REB"] == IntCell(s.reboundsTotal) && r["AST"] == IntCell(s.assists) &&
      r["plusMinusPoints"] == IntCell(s.plusMinusPoints)
  {
  }

  /** The player loop: one record per roster player, in roster order, each with the
      player's full name and shooting lines, and exactly the ten columns. */
  method LiveRecords(players: seq<Player>, threeKey: string) returns (rs: seq<Record>)
    requires ThreeKey(threeKey)
    ensures |rs| == |players|
    ensures forall i :: 0 <= i < |rs| ==> rs[i] == LiveRecord(players[i], threeKey)
  {
    ghost var want := seq(|players|, j requires 0 <= j < |players| => LiveRecord(players[j], threeKey));
    rs := [];
    for i := 0 to |players|
      invariant rs == want[..i]
    {
      rs := rs + [LiveRecord(players[i], threeKey)];
      assert want[..i + 1] == want[..i] + [want[i]];
    }
    assert want[..|players|] == want;
  }

  /** The names of the records, in order (`df['Player'].tolist()`). */
  function PlayerNames(rs: seq<Record>): (names: seq<Cell>)
    ensures |names| == |rs|
    ensures forall i :: 0 <= i < |rs| && "Player" in rs[i] ==> names[i] == rs[i]["Player"]
  {
    seq(|rs|, i requires 0 <= i < |rs| => if "Player" in rs[i] then rs[i]["Player"] else Blank)
  }

  // ---------------------------------------------------------------------------
  // format_data_for_player

  /** The `key` cell of the row holds `name`. */
  predicate Matches(row: Record, key: string, name: string) {
    key in row && row[key] == TextCell(name)
  }

  /** `df[df[key] == name].iloc[0]`: the position of the first matching row. */
  function FirstMatch(rows: seq<Record>, key: string, name: string): (r: Option<nat>)
    ensures r.None? <==> forall i :: 0 <= i < |rows| ==> !Matches(rows[i], key, name)
    ensures r.Some? ==> r.value < |rows| && Matches(rows[r.value], key, name)
    ensures r.Some? ==> forall j :: 0 <= j < r.value ==> !Matches(rows[j], key, name)
  {
    if |rows| == 0 then None
    else if Matches(rows[0], key, name) then Some(0)
    else
      match FirstMatch(rows[1..], key, name)
      case None => None
      case Some(k) => Some(k + 1)
  }

  /** `[name, stat1, row[stat1], stat2, row[stat2], ...]`; KeyError when a stat is not a
      column of the row. */
  function Fields(row: Record, name: string, stats: seq<string>): (r: Result<seq<Cell>>)
    ensures r.Ok? <==> forall j :: 0 <= j < |stats| ==> stats[j] in row
    ensures r.Err? ==> r.error == KeyError
    ensures r.Ok? ==> |r.value| == 1 + 2 * |stats| && r.value[0] == TextCell(name)
    ensures r.Ok? ==> forall j :: 0 <= j < |stats| ==>
      r.value[1 + 2 * j] == TextCell(stats[j]) && r.value[2 + 2 * j] == row[stats[j]]
  {
    if |stats| == 0 then Ok([TextCell(name)])
    else
      var n := |stats| - 1;
      match Fields(row, name, stats[..n])
      case Err(e) => Err(e)
      case Ok(before) =>
        if stats[n] in row then Ok(before + [TextCell(stats[n]), row[stats[n]]]) else Err(KeyError)
  }

  /** The flattened fields of one player (or team): IndexError when no row matches, KeyError
      when a stat is missing, otherwise the name followed by (stat, value) pairs read from
      the first matching row. */
  function FormatForPlayer(rows: seq<Record>, key: string, name: string, stats: seq<string>): (r: Result<seq<Cell>>)
    ensures r == Err(IndexError) <==> forall i :: 0 <= i < |rows| ==> !Matches(rows[i], key, name)
    ensures r.Err? ==> r.error == IndexError || r.error == KeyError
    ensures r.Ok? ==> |r.value| == 1 + 2 * |stats| && r.value[0] == TextCell(name)
  {
    match FirstMatch(rows, key, name)
    case None => Err(IndexError)
    case Some(k) => Fields(rows[k], name, stats)
  }

  /** The values come from the first row that matches: the fields are the name, then each
      stat followed by that row's value for it. */
  lemma FormatFromFirstMatch(rows: seq<Record>, key: string, name: string, stats: seq<string>)
    requires FormatForPlayer(rows, key, name, stats).Ok?
    ensures var fields := FormatForPlayer(rows, key, name, stats).value;
      exists i :: 0 <= i < |rows| && Matches(rows[i], key, name) &&
        (forall j :: 0 <= j < i ==> !Matches(rows[j], key, name)) &&
        (forall j :: 0 <= j < |stats| ==>
          (fields[1 + 2 * j] == TextCell(stats[j]) && stats[j] in rows[i] && fields[2 + 2 * j] == rows[i][stats[j]]))
  {
    var k := FirstMatch(rows, key, name).value;
    assert Matches(rows[k], key, name);
  }

  /** `format_data_for_player`: the row lookup, then the loop extending the list by one
      (stat, value) pair per stat. */
  method FormatDataForPlayer(rows: seq<Record>, key: string, name: string, stats: seq<string>)
    returns (r: Result<seq<Cell>>)
    ensures r == FormatForPlayer(rows, key, name, stats)
  {
    var k := FirstMatch(rows, key, name);
    if k.None? {
      return Err(IndexError);
    }
    var row := rows[k.value];
    var formatted := [TextCell(name)];
    for i := 0 to |stats|
      invariant Fields(row, name, stats[..i]) == Ok(formatted)
    {
      assert stats[..i + 1][..i] == stats[..i];
      if stats[i] !in row {
        assert stats[i] == stats[..i + 1][i];
        return Err(KeyError);
      }
      formatted := formatted + [TextCell(stats[i]), row[stats[i]]];
    }
    assert stats[..|stats|] == stats;
    r := Ok(formatted);
  }

  /** A selected player (or team) with the stats to show for it. */
  datatype Selection = Selection(name: string, stats: seq<string>)

  /** The number of fields the selections contribute: 1 + 2 per stat, per selection. */
  function FieldCount(sels: seq<Selection>): nat {
    if |sels| == 0 then 0 else FieldCount(sels[..|sels| - 1]) + 1 + 2 * |sels[|sels| - 1].stats|
  }

  /** With the same number of stats for everyone, the count is that of the slots. */
  lemma {:induction false} FieldCountUniform(sels: seq<Selection>, pairs: nat)
    requires forall i :: 0 <= i < |sels| ==> |sels[i].stats| == pairs
    ensures FieldCount(sels) == |sels| * (1 + 2 * pairs)
  {
    if |sels| > 0 {
      FieldCountUniform(sels[..|sels| - 1], pairs);
    }
  }

  /** The formatted fields of every selection, concatenated in selection order; the first
      failing selection's error otherwise. */
  function FormatAll(rows: seq<Record>, key: string, sels: seq<Selection>): (r: Result<seq<Cell>>)
    ensures r.Ok? <==> forall i :: 0 <= i < |sels| ==> FormatForPlayer(rows, key, sels[i].name, sels[i].stats).Ok?
    ensures r.Ok? ==> |r.value| == FieldCount(sels)
  {
    if |sels| == 0 then Ok([])
    else
      var n := |sels| - 1;
      AllFormatSplit(rows, key, sels);
      match FormatAll(rows, key, sels[..n])
      case Err(e) => Err(e)
      case Ok(before) =>
        match FormatForPlayer(rows, key, sels[n].name, sels[n].stats)
        case Err(e) => Err(e)
        case Ok(fields) => Ok(before + fields)
  }

  /** When the first selected name matches no row, the extraction fails. */
  lemma FirstSelectionMissing(rows: seq<Record>, key: string, sels: seq<Selection>)
    requires |sels| > 0 && FirstMatch(rows, key, sels[0].name).None?
    ensures FormatAll(rows, key, sels).Err?
  {
    assert FormatForPlayer(rows, key, sels[0].name, sels[0].stats) == Err(IndexError);
  }

  /** Every selection formats exactly when all but the last do and the last does. */
  lemma AllFormatSplit(rows: seq<Record>, key: string, sels: seq<Selection>)
    requires |sels| > 0
    ensures var n := |sels| - 1;
      (forall i :: 0 <= i < |sels| ==> FormatForPlayer(rows, key, sels[i].name, sels[i].stats).Ok?) <==>
      (forall i :: 0 <= i < n ==> FormatForPlayer(rows, key, sels[..n][i].name, sels[..n][i].stats).Ok?) &&
      FormatForPlayer(rows, key, sels[n].name, sels[n].stats).Ok?
  {
    var n := |sels| - 1;
    assert forall i :: 0 <= i < n ==> sels[..n][i] == sels[i];
  }

  /** When every row carries every selected stat, the extraction fails exactly when some
      selected name matches no row. */
  lemma FormatAllWhenStatsPresent(rows: seq<Record>, key: string, sels: seq<Selection>)
    requires forall i, j :: 0 <= i < |rows| && 0 <= j < |sels| ==> forall st :: st in sels[j].stats ==> st in rows[i]
    ensures FormatAll(rows, key, sels).Ok? <==>
      forall j :: 0 <= j < |sels| ==> exists i :: 0 <= i < |rows| && Matches(rows[i], key, sels[j].name)
  {
    forall j | 0 <= j < |sels|
      ensures FormatForPlayer(rows, key, sels[j].name, sels[j].stats).Ok? <==>
        exists i :: 0 <= i < |rows| && Matches(rows[i], key, sels[j].name)
    {
      var m := FirstMatch(rows, key, sels[j].name);
      if m.Some? {
        assert forall t :: 0 <= t < |sels[j].stats| ==> sels[j].stats[t] in sels[j].stats;
      }
    }
  }

  /** On rows whose Player column names the roster's players one for one and that carry
      every selected stat, the extraction succeeds exactly when every selected name is a
      roster player's full name. */
  lemma NamedRowsSucceed(rows: seq<Record>, players: seq<Player>, sels: seq<Selection>)
    requires |rows| == |players|
    requires forall i, j :: 0 <= i < |rows| && 0 <= j < |sels| ==>
      (Matches(rows[i], "Player", sels[j].name) <==> FullName(players[i]) == sels[j].name)
    requires forall i, j :: 0 <= i < |rows| && 0 <= j < |sels| ==> forall st :: st in sels[j].stats ==> st in rows[i]
    ensures FormatAll(rows, "Player", sels).Ok? <==>
      forall j :: 0 <= j < |sels| ==> exists i :: 0 <= i < |players| && FullName(players[i]) == sels[j].name
  {
    FormatAllWhenStatsPresent(rows, "Player", sels);
    forall j | 0 <= j < |sels|
      ensures (exists i :: 0 <= i < |rows| && Matches(rows[i], "Player", sels[j].name)) <==>
        exists i :: 0 <= i < |players| && FullName(players[i]) == sels[j].name
    {
      var name := sels[j].name;
      if i :| 0 <= i < |rows| && Matches(rows[i], "Player", name) {
        assert FullName(players[i]) == name;
      }
      if i :| 0 <= i < |players| && FullName(players[i]) == name {
        assert Matches(rows[i], "Player", name);
      }
    }
  }

  /** Two selections showing the same stats, on rows that all carry those stats: the
      extraction succeeds exactly when both names match some row. */
  lemma FormatPairWhenStatsPresent(rows: seq<Record>, key: string, first: string, second: string, stats: seq<string>)
    requires forall i :: 0 <= i < |rows| ==> forall st :: st in stats ==> st in rows[i]
    ensures FormatAll(rows, key, [Selection(first, stats), Selection(second, stats)]).Ok? <==>
      (exists i :: 0 <= i < |rows| && Matches(rows[i], key, first)) &&
      (exists i :: 0 <= i < |rows| && Matches(rows[i], key, second))
  {
    var sels := [Selection(first, stats), Selection(second, stats)];
    FormatAllWhenStatsPresent(rows, key, sels);
    assert sels[0].name == first && sels[1].name == second;
  }

  /** Once a prefix of the selections fails, the whole extraction fails the same way. */
  lemma {:induction false} FormatAllStops(rows: seq<Record>, key: string, sels: seq<Selection>, k: nat)
    requires k <= |sels| && FormatAll(rows, key, sels[..k]).Err?
    ensures FormatAll(rows, key, sels) == FormatAll(rows, key, sels[..k])
    decreases |sels| - k
  {
    if k < |sels| {
      assert sels[..k + 1][..k] == sels[..k];
      FormatAllStops(rows, key, sels, k + 1);
    } else {
      assert sels[..k] == sels;
    }
  }

  /** The extraction loop: `formatted_data.extend(format_data_for_player(...))` per selection. */
  method ExtractFormatted(rows: seq<Record>, key: string, sels: seq<Selection>) returns (r: Result<seq<Cell>>)
    ensures r == FormatAll(rows, key, sels)
  {
    var formatted: seq<Cell> := [];
    for i := 0 to |sels|
      invariant FormatAll(rows, key, sels[..i]) == Ok(formatted)
    {
      assert sels[..i + 1][..i] == sels[..i];
      assert sels[..i + 1][i] == sels[i];
      var one := FormatDataForPlayer(rows, key, sels[i].name, sels[i].stats);
      if one.Err? {
        FormatAllStops(rows, key, sels, i + 1);
        return Err(one.error);
      }
      formatted := formatted + one.value;
    }
    assert sels[..|sels|] == sels;
    r := Ok(formatted);
  }

  // ---------------------------------------------------------------------------
  // The header

  /** The suffix of a slot's j-th field/value pair: none for the first, " j" after. */
  function PairSuffix(j: nat): string {
    if j == 1 then "" else " " + NatToString(j)
  }

  /** "Field{i}", "Value{i}", "Field{i} 2", "Value{i} 2", ... for `pairs` pairs. */
  function PairNames(i: nat, pairs: nat): (names: seq<string>)
    ensures |names| == 2 * pairs
  {
    if pairs == 0 then []
    else
      var d := NatToString(i);
      PairNames(i, pairs - 1) + ["Field" + d + PairSuffix(pairs), "Value" + d + PairSuffix(pairs)]
  }

  /** The names of slot i: "Player{i}" then its pairs. */
  function SlotNames(i: nat, pairs: nat): (names: seq<string>)
    ensures |names| == 1 + 2 * pairs
  {
    ["Player" + NatToString(i)] + PairNames(i, pairs)
  }

  /** The header of slots 1..slots. */
  function HeaderNames(slots: nat, pairs: nat): (names: seq<string>)
    ensures |names| == slots * (1 + 2 * pairs)
  {
    if slots == 0 then [] else HeaderNames(slots - 1, pairs) + SlotNames(slots, pairs)
  }

  /** The nine names the scripts list for a slot of four pairs. */
  lemma SlotOfFourPairs(i: nat)
    ensures var d := NatToString(i);
      SlotNames(i, 4) == ["Player" + d, "Field" + d, "Value" + d, "Field" + d + " 2", "Value" + d + " 2",
                          "Field" + d + " 3", "Value" + d + " 3", "Field" + d + " 4", "Value" + d + " 4"]
  {
    var d := NatToString(i);
    assert PairSuffix(2) == " 2" && PairSuffix(3) == " 3" && PairSuffix(4) == " 4";
    assert PairNames(i, 0) == [];
    assert "Field" + d + PairSuffix(1) == "Field" + d && "Value" + d + PairSuffix(1) == "Value" + d;
    assert PairNames(i, 1) == ["Field" + d, "Value" + d];
    assert PairNames(i, 2) == PairNames(i, 1) + ["Field" + d + " 2", "Value" + d + " 2"];
    assert PairNames(i, 3) == PairNames(i, 2) + ["Field" + d + " 3", "Value" + d + " 3"];
    assert PairNames(i, 4) == PairNames(i, 3) + ["Field" + d + " 4", "Value" + d + " 4"];
  }

  /** The eleven names the team script lists for a slot of five pairs. */
  lemma SlotOfFivePairs(i: nat)
    ensures var d := NatToString(i);
      SlotNames(i, 5) == SlotNames(i, 4) + ["Field" + d + " 5", "Value" + d + " 5"]
  {
    assert PairSuffix(5) == " 5";
  }

  /** The header of the first i slots is a prefix of the whole header: slot i's names
      follow those of slots 1..i-1 wherever the header is cut. */
  lemma {:induction false} HeaderPrefix(slots: nat, pairs: nat, i: nat)
    requires i <= slots
    ensures HeaderNames(i, pairs) <= HeaderNames(slots, pairs)
    decreases slots - i
  {
    if i < slots {
      HeaderPrefix(slots, pairs, i + 1);
      var h := HeaderNames(i + 1, pairs);
      assert h == HeaderNames(i, pairs) + SlotNames(i + 1, pairs);
      assert HeaderNames(i, pairs) <= h;
    }
  }

  /** The header loop: `header.extend(slot names)` for i in 1..slots. */
  method BuildHeader(slots: nat, pairs: nat) returns (header: seq<string>)
    ensures header == HeaderNames(slots, pairs)
  {
    header := [];
    for i := 1 to slots + 1
      invariant header == HeaderNames(i - 1, pairs)
    {
      header := header + SlotNames(i, pairs);
    }
  }

  /** Neither a comma nor a line break: a name that cannot split a CSV line. */
  predicate Plain(s: string) {
    ',' !in s && '\n' !in s
  }

  lemma DigitsArePlain(n: nat)
    ensures Plain(NatToString(n))
  {
  }

  lemma {:induction false} PairNamesPlain(i: nat, pairs: nat)
    ensures forall k :: 0 <= k < |PairNames(i, pairs)| ==> Plain(PairNames(i, pairs)[k])
  {
    if pairs > 0 {
      PairNamesPlain(i, pairs - 1);
      DigitsArePlain(i);
      DigitsArePlain(pairs);
    }
  }

  /** No header name holds a comma or a line break. */
  lemma {:induction false} HeaderPlain(slots: nat, pairs: nat)
    ensures forall k :: 0 <= k < |HeaderNames(slots, pairs)| ==> Plain(HeaderNames(slots, pairs)[k])
  {
    if slots > 0 {
      HeaderPlain(slots - 1, pairs);
      PairNamesPlain(slots, pairs);
      DigitsArePlain(slots);
      var s := SlotNames(slots, pairs);
      assert forall k :: 1 <= k < |s| ==> s[k] == PairNames(slots, pairs)[k - 1];
    }
  }

  // ---------------------------------------------------------------------------
  // The CSV text

  /** `str(item)`: the text of a value; `floatText` stands for Python's float repr. */
  function CellText(c: Cell, floatText: real -> string): string {
    match c
    case Blank => "nan"
    case IntCell(i) => IntToString(i)
    case NumCell(x) => floatText(x)
    case TextCell(t) => t
  }

  function Texts(items: seq<Cell>, floatText: real -> string): (ts: seq<string>)
    ensures |ts| == |items|
    ensures forall k :: 0 <= k < |items| ==> ts[k] == CellText(items[k], floatText)
  {
    seq(|items|, k requires 0 <= k < |items| => CellText(items[k], floatText))
  }

  /** The file: the comma-joined header, a line break, the comma-joined items; no quoting. */
  function CsvFile(header: seq<string>, items: seq<Cell>, floatText: real -> string): string {
    Join(header, ",") + "\n" + Join(Texts(items, floatText), ",")
  }

  lemma {:induction false} JoinWithout(xs: seq<string>, sep: string, c: char)
    requires c !in sep && forall k :: 0 <= k < |xs| ==> c !in xs[k]
    ensures c !in Join(xs, sep)
  {
    if |xs| > 1 {
      JoinWithout(xs[1..], sep, c);
    }
  }

  /** Splitting on a one-character separator undoes joining when no piece holds it. */
  lemma {:induction false} SplitJoinChar(xs: seq<string>, c: char)
    requires |xs| >= 1 && forall k :: 0 <= k < |xs| ==> c !in xs[k]
    ensures SplitOn(Join(xs, [c]), [c]) == xs
  {
    var x := xs[0];
    if |xs| == 1 {
      AbsentFirstChar(x, [c]);
    } else {
      var rest := Join(xs[1..], [c]);
      assert Join(xs, [c]) == x + [c] + rest;
      SplitAtFirst(x, rest, c);
      SplitJoinChar(xs[1..], c);
      assert xs == [x] + xs[1..];
    }
  }

  /** Splitting text whose first piece has no separator peels off that piece. */
  lemma SplitAtFirst(x: string, rest: string, c: char)
    requires c !in x
    ensures SplitOn(x + [c] + rest, [c]) == [x] + SplitOn(rest, [c])
  {
    var s := x + [c] + rest;
    assert OccursAt(s, [c], |x|);
    forall j | 0 <= j < |x|
      ensures !OccursAt(s, [c], j)
    {
      assert s[j..j + 1][0] == x[j];
    }
    FindIsFirst(s, [c], |x|);
    assert s[..|x|] == x && s[|x| + 1..] == rest;
  }

  /** The file's first line break ends the header line; the header line splits back into
      the header names and the data line into the item texts, so the two lines have one
      field per name exactly when there are as many items as names. */
  lemma CsvLines(header: seq<string>, items: seq<Cell>, floatText: real -> string)
    requires |header| >= 1 && |items| >= 1
    requires forall k :: 0 <= k < |header| ==> Plain(header[k])
    requires forall k :: 0 <= k < |items| ==> ',' !in CellText(items[k], floatText)
    ensures var f := CsvFile(header, items, floatText);
      var h := |Join(header, ",")|;
      Find(f, "\n") == Some(h) &&
      SplitOn(f[..h], ",") == header &&
      SplitOn(f[h + 1..], ",") == Texts(items, floatText)
  {
    JoinWithout(header, ",", '\n');
    FirstLineBreak(Join(header, ","), Join(Texts(items, floatText), ","));
    assert "," == [','];
    SplitJoinChar(header, ',');
    SplitJoinChar(Texts(items, floatText), ',');
  }

  /** In two lines joined by a line break, the first break ends the first line. */
  lemma FirstLineBreak(hl: string, dl: string)
    requires '\n' !in hl
    ensures var f := hl + "\n" + dl;
      Find(f, "\n") == Some(|hl|) && f[..|hl|] == hl && f[|hl| + 1..] == dl
  {
    var f := hl + "\n" + dl;
    assert OccursAt(f, "\n", |hl|);
    forall j | 0 <= j < |hl|
      ensures !OccursAt(f, "\n", j)
    {
      assert f[j..j + 1][0] == hl[j];
    }
    FindIsFirst(f, "\n", |hl|);
    assert f[..|hl|] == hl && f[|hl| + 1..] == dl;
  }

  // ---------------------------------------------------------------------------
  // INSERT INTO player_stats

  /** The column list of `INSERT INTO player_stats (...)`. */
  const InsertColumns: seq<string> :=
    ["Player", "PTS", "REB", "AST", "BLK", "STL", "TOV", "FGs", "threePt", "plusMinusPoints"]

  /** The record holds every column of the "3pt" record. */
  predicate HasLiveColumns(r: Record) {
    forall c :: c in LiveColumns("3pt") ==> c in r
  }

  /** `tuple(row)`: the record's values in the frame's column order. */
  function RowTuple(r: Record): (t: seq<Cell>)
    requires HasLiveColumns(r)
    ensures |t| == |LiveColumns("3pt")|
    ensures forall k :: 0 <= k < |t| ==> t[k] == r[LiveColumns("3pt")[k]]
  {
    var cs := LiveColumns("3pt");
    seq(|cs|, k requires 0 <= k < |cs| => r[cs[k]])
  }

  /** The stored row as the scripts write it: the k-th tuple value goes to the k-th column
      of the INSERT list. */
  function StoredAsWritten(r: Record): (row: map<string, Cell>)
    requires HasLiveColumns(r)
    ensures row.Keys == set c | c in InsertColumns
  {
    var t := RowTuple(r);
    map["Player" := t[0], "PTS" := t[1], "REB" := t[2], "AST" := t[3], "BLK" := t[4],
        "STL" := t[5], "TOV" := t[6], "FGs" := t[7], "threePt" := t[8], "plusMinusPoints" := t[9]]
  }

  /** As written, the BLK, STL and TOV columns receive the steals, the turnovers and the
      blocks; so the stored blocks are right only when the player's steals equal the player's blocks. */
  lemma InsertShiftsColumns(p: Player)
    ensures var stored := StoredAsWritten(LiveRecord(p, "3pt"));
      stored["BLK"] == IntCell(p.statistics.steals) &&
      stored["STL"] == IntCell(p.statistics.turnovers) &&
      stored["TOV"] == IntCell(p.statistics.blocks)
    ensures StoredAsWritten(LiveRecord(p, "3pt"))["BLK"] == LiveRecord(p, "3pt")["BLK"]
      <==> p.statistics.steals == p.statistics.blocks
  {
    var r := LiveRecord(p, "3pt");
    LiveRecordCounts(p);
    StoredAsWrittenShift(r);
  }

  /** The steals, turnovers and blocks of the record are the player's. */
  lemma LiveRecordCounts(p: Player)
    ensures var r := LiveRecord(p, "3pt");
      r["STL"] == IntCell(p.statistics.steals) && r["TOV"] == IntCell(p.statistics.turnovers) &&
      r["BLK"] == IntCell(p.statistics.blocks)
  {
  }

  /** Positions 5 to 7 of the tuple are STL, TOV, BLK; of the INSERT list BLK, STL, TOV. */
  lemma StoredAsWrittenShift(r: Record)
    requires HasLiveColumns(r)
    ensures var stored := StoredAsWritten(r);
      stored["BLK"] == r["STL"] && stored["STL"] == r["TOV"] && stored["TOV"] == r["BLK"]
  {
    StoredBlocks(r);
    StoredSteals(r);
    StoredTurnovers(r);
  }

  lemma StoredBlocks(r: Record)
    requires HasLiveColumns(r)
    ensures StoredAsWritten(r)["BLK"] == r["STL"]
  {
    assert RowTuple(r)[4] == r["STL"];
  }

  lemma StoredSteals(r: Record)
    requires HasLiveColumns(r)
    ensures StoredAsWritten(r)["STL"] == r["TOV"]
  {
    assert RowTuple(r)[5] == r["TOV"];
  }

  lemma StoredTurnovers(r: Record)
    requires HasLiveColumns(r)
    ensures StoredAsWritten(r)["TOV"] == r["BLK"]
  {
    assert RowTuple(r)[6] == r["BLK"];
  }

  /** A player with two steals and no blocks is stored with two blocks. */
  lemma InsertShiftExample()
    ensures var p := Player("Anthony", "Edwards", "G", Statistics(30, 5, 4, 2, 3, 0, 11, 20, 4, 9, 12));
      StoredAsWritten(LiveRecord(p, "3pt"))["BLK"] == IntCell(2) && LiveRecord(p, "3pt")["BLK"] == IntCell(0)
  {
    var p := Player("Anthony", "Edwards", "G", Statistics(30, 5, 4, 2, 3, 0, 11, 20, 4, 9, 12));
    InsertShiftsColumns(p);
  }

  /** The frame column that feeds an INSERT column: the same name, except threePt, which
      is the frame's "3pt". */
  function SourceColumn(c: string): string {
    if c == "threePt" then "3pt" else c
  }

  /** The stored row with every value placed by its column name. */
  function StoredByName(r: Record): (row: map<string, Cell>)
    requires HasLiveColumns(r)
    ensures row.Keys == set c | c in InsertColumns
    ensures "BLK" in row && "STL" in row && "TOV" in row && "threePt" in row
    ensures forall k :: 0 <= k < |InsertColumns| ==> row[InsertColumns[k]] == r[SourceColumn(InsertColumns[k])]
  {
    InsertSources();
    assert InsertColumns[4] == "BLK" && InsertColumns[5] == "STL" && InsertColumns[6] == "TOV" && InsertColumns[8] == "threePt";
    map c | c in InsertColumns :: r[SourceColumn(c)]
  }

  /** Every INSERT column is fed by a column of the "3pt" record. */
  lemma InsertSources()
    ensures forall c :: c in InsertColumns ==> SourceColumn(c) in LiveColumns("3pt")
  {
  }

  /** Stored by name, every column of a player's row holds that player's own value. */
  lemma StoredByNameFaithful(p: Player)
    ensures var stored := StoredByName(LiveRecord(p, "3pt"));
      stored["BLK"] == IntCell(p.statistics.blocks) &&
      stored["STL"] == IntCell(p.statistics.steals) &&
      stored["TOV"] == IntCell(p.statistics.turnovers) &&
      stored["threePt"] == TextCell(MadeAttempted(p.statistics.threePointersMade, p.statistics.threePointersAttempted))
  {
    var r := LiveRecord(p, "3pt");
    LiveRecordCounts(p);
    StoredByNameCounts(r);
  }

  lemma StoredByNameCounts(r: Record)
    requires HasLiveColumns(r)
    ensures var stored := StoredByName(r);
      stored["BLK"] == r["BLK"] && stored["STL"] == r["STL"] && stored["TOV"] == r["TOV"] && stored["threePt"] == r["3pt"]
  {
    assert InsertColumns[4] == "BLK" && InsertColumns[5] == "STL" && InsertColumns[6] == "TOV" && InsertColumns[8] == "threePt";
  }
}
