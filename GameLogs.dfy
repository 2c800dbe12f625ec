/** Week-over-week shooting and box-score trends from Basketball-Reference game logs:
    games are keyed by their "%Y-W%W" week, shot counts are summed per player and week,
    and each player's latest complete week is compared with the week before and with the
    player's overall average. */
module GameLogs {
  import opened Wrappers
  import opened Text
  import Lists

  // ---------------------------------------------------------------------------
  // Year-Week keys

  /** A calendar day: its year, its day of the year counted from 0 (`tm_yday`), and its
      weekday counted from Monday = 0. */
  datatype Day = Day(year: nat, yday: nat, weekday: nat)

  /** A day `strftime` writes with a four-digit year. */
  predicate ValidDay(d: Day) {
    1000 <= d.year <= 9999 && d.yday <= 365 && d.weekday <= 6
  }

  /** `%W`: the week of the year with Monday as its first day; the days before the
      year's first Monday are week 0. */
  function WeekOfYear(d: Day): (w: nat)
    requires ValidDay(d)
    ensures w <= 53
    ensures w == 0 <==> d.yday < d.weekday
  {
    (d.yday + 7 - d.weekday) / 7
  }

  /** The days of one Monday-to-Sunday week share their week number. */
  lemma SameWeek(d1: Day, d2: Day, k: nat)
    requires ValidDay(d1) && ValidDay(d2) && d1.year == d2.year
    requires d2.yday == d1.yday + k && d2.weekday == d1.weekday + k
    ensures WeekOfYear(d1) == WeekOfYear(d2)
  {
  }

  /** The same weekday one week later is one week number further. */
  lemma NextWeek(d1: Day, d2: Day)
    requires ValidDay(d1) && ValidDay(d2) && d1.year == d2.year
    requires d2.yday == d1.yday + 7 && d2.weekday == d1.weekday
    ensures WeekOfYear(d2) == WeekOfYear(d1) + 1
  {
  }

  function Pow10(w: nat): (p: nat)
    ensures p >= 1
  {
    if w == 0 then 1 else 10 * Pow10(w - 1)
  }

  /** `n` written with exactly `width` decimal digits, zeros in front (`%04d`, `%02d`). */
  function Padded(n: nat, width: nat): (s: string)
    requires n < Pow10(width)
    ensures |s| == width && AllDigits(s)
  {
    if width == 0 then [] else Padded(n / 10, width - 1) + [DigitChar(n % 10)]
  }

  /** The padded digits read back as the number. */
  lemma {:induction false} PaddedValue(n: nat, width: nat)
    requires n < Pow10(width)
    ensures DigitsValue(Padded(n, width)) == n
  {
    if width > 0 {
      var s := Padded(n, width);
      PaddedValue(n / 10, width - 1);
      assert s[..|s| - 1] == Padded(n / 10, width - 1);
    }
  }

  /** Comparing two strings whose first parts have the same length compares the first
      parts, and the rest only when those are equal. */
  lemma {:induction false} LexLessAppend(p1: string, s1: string, p2: string, s2: string)
    requires |p1| == |p2|
    ensures LexLess(p1 + s1, p2 + s2) <==> LexLess(p1, p2) || (p1 == p2 && LexLess(s1, s2))
    decreases |p1|
  {
    if |p1| == 0 {
      assert p1 + s1 == s1 && p2 + s2 == s2;
    } else {
      assert (p1 + s1)[0] == p1[0] && (p2 + s2)[0] == p2[0];
      assert (p1 + s1)[1..] == p1[1..] + s1 && (p2 + s2)[1..] == p2[1..] + s2;
      LexLessAppend(p1[1..], s1, p2[1..], s2);
      if p1[0] == p2[0] {
        assert p1 == p2 <==> p1[1..] == p2[1..] by {
          assert p1 == [p1[0]] + p1[1..] && p2 == [p2[0]] + p2[1..];
        }
      }
    }
  }

  /** Zero-padded numbers of one width compare as strings as they compare as numbers. */
  lemma {:induction false} PaddedOrder(a: nat, b: nat, width: nat)
    requires a < Pow10(width) && b < Pow10(width)
    ensures LexLess(Padded(a, width), Padded(b, width)) <==> a < b
    ensures Padded(a, width) == Padded(b, width) <==> a == b
  {
    PaddedValue(a, width);
    PaddedValue(b, width);
    if width > 0 {
      var pa, pb := Padded(a / 10, width - 1), Padded(b / 10, width - 1);
      var ca, cb := DigitChar(a % 10), DigitChar(b % 10);
      PaddedOrder(a / 10, b / 10, width - 1);
      LexLessAppend(pa, [ca], pb, [cb]);
      DigitCharOrder(a % 10, b % 10);
      SameLengthAppendEq(pa, [ca], pb, [cb]);
      LastDigitOrder(a, b);
    }
  }

  /** One-character strings of digits compare as the digits do. */
  lemma DigitCharOrder(x: nat, y: nat)
    requires x < 10 && y < 10
    ensures LexLess([DigitChar(x)], [DigitChar(y)]) <==> x < y
    ensures [DigitChar(x)] == [DigitChar(y)] <==> x == y
  {
    assert [DigitChar(x)][1..] == [] && [DigitChar(y)][1..] == [];
  }

  lemma SameLengthAppendEq(p1: string, s1: string, p2: string, s2: string)
    requires |p1| == |p2|
    ensures p1 + s1 == p2 + s2 <==> p1 == p2 && s1 == s2
  {
    if p1 + s1 == p2 + s2 {
      assert p1 == (p1 + s1)[..|p1|] && p2 == (p2 + s2)[..|p1|];
      assert s1 == (p1 + s1)[|p1|..] && s2 == (p2 + s2)[|p1|..];
    }
  }

  /** Numbers compare by all but their last digit, then by the last digit. */
  lemma LastDigitOrder(a: nat, b: nat)
    ensures a < b <==> a / 10 < b / 10 || (a / 10 == b / 10 && a % 10 < b % 10)
    ensures a == b <==> a / 10 == b / 10 && a % 10 == b % 10
  {
    assert a == 10 * (a / 10) + a % 10 && b == 10 * (b / 10) + b % 10;
  }

  /** `strftime('%Y-W%W')`. */
  function YearWeek(d: Day): (key: string)
    requires ValidDay(d)
    ensures |key| == 8
  {
    assert Pow10(2) == 100 && Pow10(4) == 10000;
    Padded(d.year, 4) + "-W" + Padded(WeekOfYear(d), 2)
  }

  /** Sorting Year-Week keys as strings sorts the weeks chronologically, and two days
      share a key exactly when they share year and week number. */
  lemma YearWeekOrder(d1: Day, d2: Day)
    requires ValidDay(d1) && ValidDay(d2)
    ensures LexLess(YearWeek(d1), YearWeek(d2)) <==>
      d1.year < d2.year || (d1.year == d2.year && WeekOfYear(d1) < WeekOfYear(d2))
    ensures YearWeek(d1) == YearWeek(d2) <==> d1.year == d2.year && WeekOfYear(d1) == WeekOfYear(d2)
  {
    assert Pow10(2) == 100 && Pow10(4) == 10000;
    var y1, y2 := Padded(d1.year, 4), Padded(d2.year, 4);
    var w1, w2 := Padded(WeekOfYear(d1), 2), Padded(WeekOfYear(d2), 2);
    assert YearWeek(d1) == y1 + ("-W" + w1) && YearWeek(d2) == y2 + ("-W" + w2);
    PaddedOrder(d1.year, d2.year, 4);
    PaddedOrder(WeekOfYear(d1), WeekOfYear(d2), 2);
    LexLessAppend(y1, "-W" + w1, y2, "-W" + w2);
    LexLessAppend("-W", w1, "-W", w2);
    LexLessIrreflexive("-W");
    if YearWeek(d1) == YearWeek(d2) {
      assert YearWeek(d1)[..4] == y1 && YearWeek(d2)[..4] == y2;
      assert YearWeek(d1)[6..] == w1 && YearWeek(d2)[6..] == w2;
    }
  }

  // ---------------------------------------------------------------------------
  // The answer to the prompt

  /** `input(...).strip().lower() in ['yes', 'y']`. */
  predicate UseCurrentWeek(answer: string) {
    var a := Lower(Strip(answer));
    a == "yes" || a == "y"
  }

  /** White space typed before or after the answer never changes it. */
  lemma UseCurrentWeekPadding(w1: string, answer: string, w2: string)
    requires AllSpace(w1) && AllSpace(w2)
    ensures UseCurrentWeek(w1 + answer + w2) == UseCurrentWeek(answer)
  {
    StripPadded(w1, answer, w2);
  }

  /** Letter case never changes the answer: two answers that lower-case alike agree. */
  lemma UseCurrentWeekCase(a: string, b: string)
    requires Lower(a) == Lower(b)
    ensures UseCurrentWeek(a) == UseCurrentWeek(b)
  {
    LowerStrip(a);
    LowerStrip(b);
  }

  /** Any answer that lower-cases to "yes" or "y", with white space on either side,
      means yes (" Yes\n", "Y", "  YES"). */
  lemma UseCurrentWeekYes(w1: string, a: string, w2: string)
    requires AllSpace(w1) && AllSpace(w2)
    requires Lower(a) == "yes" || Lower(a) == "y"
    ensures UseCurrentWeek(w1 + a + w2)
  {
    UseCurrentWeekPadding(w1, a, w2);
    if Lower(a) == "yes" {
      LowerYes("yes");
      UseCurrentWeekCase(a, "yes");
    } else {
      LowerYes("y");
      UseCurrentWeekCase(a, "y");
    }
  }

  /** "yes" and "y" are lower-case, without surrounding white space, and mean yes. */
  lemma LowerYes(a: string)
    requires a == "yes" || a == "y"
    ensures Lower(a) == a && UseCurrentWeek(a)
  {
    LStripNoEdge(a);
    RStripNoEdge(a);
  }

  // ---------------------------------------------------------------------------
  // Shot sums

  /** The summed shot columns of the weekly aggregate. */
  datatype ShotStat = ThreesAttempted | FieldGoalsAttempted | ThreesMade | FieldGoalsMade

  /** One game-log row: the player, the row's Year-Week key, and its shot counts. */
  datatype GameLog = GameLog(player: string, week: string, att3: nat, fga: nat, made3: nat, fg: nat)

  function Count(g: GameLog, s: ShotStat): nat {
    match s
    case ThreesAttempted => g.att3
    case FieldGoalsAttempted => g.fga
    case ThreesMade => g.made3
    case FieldGoalsMade => g.fg
  }

  /** `groupby(['Player', 'Year-Week'])[stat].sum()` for one group. */
  function WeekSum(logs: seq<GameLog>, player: string, week: string, s: ShotStat): nat {
    if |logs| == 0 then 0
    else
      var g := logs[|logs| - 1];
      WeekSum(logs[..|logs| - 1], player, week, s) + (if g.player == player && g.week == week then Count(g, s) else 0)
  }

  /** `groupby('Player').agg({stat: 'sum'})` for one player. */
  function PlayerSum(logs: seq<GameLog>, player: string, s: ShotStat): nat {
    if |logs| == 0 then 0
    else
      var g := logs[|logs| - 1];
      PlayerSum(logs[..|logs| - 1], player, s) + (if g.player == player then Count(g, s) else 0)
  }

  /** The weekly sums of one player over the given weeks, added up. */
  function SumOverWeeks(logs: seq<GameLog>, player: string, weeks: seq<string>, s: ShotStat): nat {
    if |weeks| == 0 then 0
    else SumOverWeeks(logs, player, weeks[..|weeks| - 1], s) + WeekSum(logs, player, weeks[|weeks| - 1], s)
  }

  /** Adding one game to the logs adds its count to the one week it belongs to. */
  lemma {:induction false} SumOverWeeksStep(logs: seq<GameLog>, g: GameLog, player: string, weeks: seq<string>, s: ShotStat)
    requires Lists.Distinct(weeks)
    ensures SumOverWeeks(logs + [g], player, weeks, s) ==
      SumOverWeeks(logs, player, weeks, s) + (if g.player == player && g.week in weeks then Count(g, s) else 0)
  {
    if |weeks| > 0 {
      var n := |weeks| - 1;
      DistinctInit(weeks);
      SumOverWeeksStep(logs, g, player, weeks[..n], s);
      assert (logs + [g])[..|logs|] == logs;
      assert g.week in weeks <==> g.week in weeks[..n] || g.week == weeks[n] by {
        assert weeks == weeks[..n] + [weeks[n]];
      }
    }
  }

  lemma {:induction false} DistinctInit<T>(xs: seq<T>)
    requires |xs| > 0 && Lists.Distinct(xs)
    ensures Lists.Distinct(xs[..|xs| - 1]) && xs[|xs| - 1] !in xs[..|xs| - 1]
  {
    if |xs| > 1 {
      DistinctInit(xs[1..]);
      assert xs[1..][..|xs| - 2] == xs[..|xs| - 1][1..];
    }
  }

  /** A player's season total is the sum of the player's weekly totals, over any list of
      distinct weeks that covers all the player's games. */
  lemma {:induction false} SumOfWeeks(logs: seq<GameLog>, player: string, weeks: seq<string>, s: ShotStat)
    requires Lists.Distinct(weeks)
    requires forall g :: g in logs && g.player == player ==> g.week in weeks
    ensures SumOverWeeks(logs, player, weeks, s) == PlayerSum(logs, player, s)
  {
    if |logs| == 0 {
      NoLogsNoSum(player, weeks, s);
    } else {
      var n := |logs| - 1;
      assert logs == logs[..n] + [logs[n]];
      SumOfWeeks(logs[..n], player, weeks, s);
      SumOverWeeksStep(logs[..n], logs[n], player, weeks, s);
    }
  }

  lemma {:induction false} NoLogsNoSum(player: string, weeks: seq<string>, s: ShotStat)
    ensures SumOverWeeks([], player, weeks, s) == 0
  {
    if |weeks| > 0 {
      NoLogsNoSum(player, weeks[..|weeks| - 1], s);
    }
  }

  /** `made / attempted` with NaN (0 / 0) filled with 0. */
  function Ratio(made: nat, attempted: nat): (r: real)
    ensures attempted > 0 ==> r * attempted as real == made as real
    ensures attempted == 0 ==> r == 0.0
    ensures made <= attempted ==> 0.0 <= r <= 1.0
  {
    if attempted == 0 then 0.0 else made as real / attempted as real
  }

  /** A player's 3P% or FG% for one week, from the summed counts of that week. */
  function WeekPct(logs: seq<GameLog>, player: string, week: string, made: ShotStat, attempted: ShotStat): real {
    Ratio(WeekSum(logs, player, week, made), WeekSum(logs, player, week, attempted))
  }

  /** A player's overall 3P% or FG% from the summed counts of the season. */
  function OverallPct(logs: seq<GameLog>, player: string, made: ShotStat, attempted: ShotStat): real {
    Ratio(PlayerSum(logs, player, made), PlayerSum(logs, player, attempted))
  }

  /** The overall percentage is a ratio of sums: all the weeks' makes over all the weeks'
      attempts. */
  lemma OverallIsRatioOfSums(logs: seq<GameLog>, player: string, weeks: seq<string>, made: ShotStat, attempted: ShotStat)
    requires Lists.Distinct(weeks)
    requires forall g :: g in logs && g.player == player ==> g.week in weeks
    ensures OverallPct(logs, player, made, attempted) ==
      Ratio(SumOverWeeks(logs, player, weeks, made), SumOverWeeks(logs, player, weeks, attempted))
  {
    SumOfWeeks(logs, player, weeks, made);
    SumOfWeeks(logs, player, weeks, attempted);
  }

  /** ... and not the mean of the weekly ratios: one made three in one attempt and none in
      three attempts give 25%, where the weekly ratios average 50%. */
  lemma NotMeanOfRatios()
    ensures var logs := [GameLog("A", "2024-W01", 1, 1, 1, 1), GameLog("A", "2024-W02", 3, 3, 0, 0)];
      OverallPct(logs, "A", ThreesMade, ThreesAttempted) == 0.25 &&
      (WeekPct(logs, "A", "2024-W01", ThreesMade, ThreesAttempted) +
       WeekPct(logs, "A", "2024-W02", ThreesMade, ThreesAttempted)) / 2.0 == 0.5
  {
    var logs := [GameLog("A", "2024-W01", 1, 1, 1, 1), GameLog("A", "2024-W02", 3, 3, 0, 0)];
    assert logs[..1] == [logs[0]] && logs[..1][..0] == [];
    assert PlayerSum(logs, "A", ThreesMade) == 1 && PlayerSum(logs, "A", ThreesAttempted) == 4;
    assert WeekSum(logs, "A", "2024-W01", ThreesMade) == 1 && WeekSum(logs, "A", "2024-W01", ThreesAttempted) == 1;
    assert WeekSum(logs, "A", "2024-W02", ThreesMade) == 0 && WeekSum(logs, "A", "2024-W02", ThreesAttempted) == 3;
  }

  /** A player's weekly percentages in the order of the given weeks. */
  function PctSeries(logs: seq<GameLog>, player: string, weeks: seq<string>, made: ShotStat, attempted: ShotStat): (values: seq<real>)
    ensures |values| == |weeks|
    ensures forall i :: 0 <= i < |weeks| ==> values[i] == WeekPct(logs, player, weeks[i], made, attempted)
  {
    seq(|weeks|, i requires 0 <= i < |weeks| => WeekPct(logs, player, weeks[i], made, attempted))
  }

  // ---------------------------------------------------------------------------
  // Week-over-week changes

  /** Which two of a player's `n` week-sorted rows are compared, as (current, previous):
      the last two in current-week mode, otherwise the two before the latest. */
  function Window(n: nat, useCurrent: bool): (w: Option<(nat, nat)>)
    ensures w.Some? <==> (if useCurrent then n >= 2 else n >= 3)
    ensures w.Some? ==> w.value.0 < n && w.value.1 + 1 == w.value.0
    ensures w.Some? && useCurrent ==> w.value.0 == n - 1
    ensures w.Some? && !useCurrent ==> w.value.0 == n - 2
  {
    if useCurrent && n > 1 then Some((n - 1, n - 2))
    else if !useCurrent && n > 2 then Some((n - 2, n - 3))
    else None
  }

  /** The record stored for one player and stat. */
  datatype Change = Change(fromPrevious: real, fromAverage: real, current: real, previous: real, overall: real)

  /** The comparison for one player's week-sorted values of one stat, or None when the
      player has too few weeks and is skipped. */
  function StatChange(values: seq<real>, overall: real, useCurrent: bool): (r: Option<Change>)
    ensures r.Some? <==> Window(|values|, useCurrent).Some?
    ensures r.Some? ==> r.value.current == values[Window(|values|, useCurrent).value.0]
    ensures r.Some? ==> r.value.previous == values[Window(|values|, useCurrent).value.1]
    ensures r.Some? ==> r.value.fromPrevious == r.value.current - r.value.previous
    ensures r.Some? ==> r.value.fromAverage == r.value.current - overall && r.value.overall == overall
  {
    match Window(|values|, useCurrent)
    case None => None
    case Some((c, p)) => Some(Change(values[c] - values[p], values[c] - overall, values[c], values[p], overall))
  }

  /** Outside current-week mode the latest week never affects the result. */
  lemma LatestWeekIgnored(values: seq<real>, x: real, y: real, overall: real)
    ensures StatChange(values + [x], overall, false) == StatChange(values + [y], overall, false)
  {
    var a, b := values + [x], values + [y];
    assert forall i :: 0 <= i < |values| ==> a[i] == b[i];
  }

  /** Skipping the latest week is current-week mode on the weeks before it. */
  lemma ModesAgree(values: seq<real>, x: real, overall: real)
    ensures StatChange(values + [x], overall, false) == StatChange(values, overall, true)
  {
    var a := values + [x];
    assert forall i :: 0 <= i < |values| ==> a[i] == values[i];
  }

  /** One player's values of one stat, in ascending Year-Week order. */
  datatype Series = Series(player: string, stat: string, values: seq<real>)

  /** The overall averages, by player and stat. */
  type Overall = map<string, map<string, real>>

  /** `overall_averages.loc[player, stat] if stat in overall_averages.columns else 0`. */
  function OverallOf(overall: Overall, player: string, stat: string): real {
    if player in overall && stat in overall[player] then overall[player][stat] else 0.0
  }

  /** The changes by player and stat. */
  type Changes = map<string, map<string, Change>>

  /** `all_players_changes.setdefault(player, {})[stat] = c`. */
  function Store(changes: Changes, player: string, stat: string, c: Change): (r: Changes)
    ensures r.Keys == changes.Keys + {player}
    ensures stat in r[player] && r[player][stat] == c
    ensures forall s :: s != stat ==> (s in r[player] <==> player in changes && s in changes[player])
    ensures forall s :: s != stat && s in r[player] ==> r[player][s] == changes[player][s]
    ensures forall p :: p in changes && p != player ==> r[p] == changes[p]
  {
    changes[player := (if player in changes then changes[player] else map[])[stat := c]]
  }

  /** The dictionary after the loops have visited the given series. */
  function ChangesOf(series: seq<Series>, overall: Overall, useCurrent: bool): Changes {
    if |series| == 0 then map[]
    else
      var before := ChangesOf(series[..|series| - 1], overall, useCurrent);
      var x := series[|series| - 1];
      match StatChange(x.values, OverallOf(overall, x.player, x.stat), useCurrent)
      case None => before
      case Some(c) => Store(before, x.player, x.stat, c)
  }

  /** The comparison loops: for every player and stat with enough weeks, store the
      change record; the others are skipped. */
  method WeekOverWeek(series: seq<Series>, overall: Overall, useCurrent: bool) returns (changes: Changes)
    ensures changes == ChangesOf(series, overall, useCurrent)
  {
    changes := map[];
    for k := 0 to |series|
      invariant changes == ChangesOf(series[..k], overall, useCurrent)
    {
      var x := series[k];
      assert series[..k + 1][..k] == series[..k];
      var c := StatChange(x.values, OverallOf(overall, x.player, x.stat), useCurrent);
      if c.Some? {
        changes := Store(changes, x.player, x.stat, c.value);
      }
    }
    assert series[..|series|] == series;
  }

  /** No player and stat pair is visited twice (each group is visited once). */
  predicate PairsDistinct(series: seq<Series>) {
    forall i, j :: 0 <= i < j < |series| ==>
      series[i].player != series[j].player || series[i].stat != series[j].stat
  }

  /** A stored change exists exactly for the pairs with enough weeks, and it is that
      pair's comparison. */
  lemma {:induction false} ChangesOfAt(series: seq<Series>, overall: Overall, useCurrent: bool)
    requires PairsDistinct(series)
    ensures var r := ChangesOf(series, overall, useCurrent);
      forall k :: 0 <= k < |series| ==> StoredFor(r, series[k], overall, useCurrent)
  {
    if |series| > 0 {
      var n := |series| - 1;
      var init := series[..n];
      var x := series[n];
      assert PairsDistinct(init);
      ChangesOfAt(init, overall, useCurrent);
      var before := ChangesOf(init, overall, useCurrent);
      var r := ChangesOf(series, overall, useCurrent);
      forall k | 0 <= k < |series|
        ensures StoredFor(r, series[k], overall, useCurrent)
      {
        if k < n {
          assert series[k] == init[k];
          StoredForOther(before, init[k], x, overall, useCurrent);
        } else if x.player in before && x.stat in before[x.player] {
          ChangesOfOnly(init, overall, useCurrent);
          assert false;
        }
      }
    }
  }

  /** Storing the comparison of `x` keeps what is stored for every other pair. */
  lemma StoredForOther(before: Changes, y: Series, x: Series, overall: Overall, useCurrent: bool)
    requires StoredFor(before, y, overall, useCurrent)
    requires y.player != x.player || y.stat != x.stat
    ensures var c := StatChange(x.values, OverallOf(overall, x.player, x.stat), useCurrent);
      StoredFor(if c.Some? then Store(before, x.player, x.stat, c.value) else before, y, overall, useCurrent)
  {
  }

  /** Nothing is stored for a pair the loops did not visit. */
  lemma {:induction false} ChangesOfOnly(series: seq<Series>, overall: Overall, useCurrent: bool)
    ensures forall p, s :: p in ChangesOf(series, overall, useCurrent) && s in ChangesOf(series, overall, useCurrent)[p] ==>
      exists k :: 0 <= k < |series| && series[k].player == p && series[k].stat == s
  {
    if |series| > 0 {
      var n := |series| - 1;
      var init := series[..n];
      var x := series[n];
      ChangesOfOnly(init, overall, useCurrent);
      var before := ChangesOf(init, overall, useCurrent);
      var r := ChangesOf(series, overall, useCurrent);
      forall p, s | p in r && s in r[p]
        ensures exists k :: 0 <= k < |series| && series[k].player == p && series[k].stat == s
      {
        if p == x.player && s == x.stat {
          assert series[n].player == p && series[n].stat == s;
        } else {
          var c := StatChange(x.values, OverallOf(overall, x.player, x.stat), useCurrent);
          assert r == if c.Some? then Store(before, x.player, x.stat, c.value) else before;
          assert p in before && s in before[p];
          var k :| 0 <= k < |init| && init[k].player == p && init[k].stat == s;
          assert series[k] == init[k];
        }
      }
    }
  }

  /** The dictionary holds the comparison of `x` exactly when `x` has enough weeks. */
  predicate StoredFor(r: Changes, x: Series, overall: Overall, useCurrent: bool) {
    match StatChange(x.values, OverallOf(overall, x.player, x.stat), useCurrent)
    case Some(c) => x.player in r && x.stat in r[x.player] && r[x.player][x.stat] == c
    case None => !(x.player in r && x.stat in r[x.player])
  }
}
