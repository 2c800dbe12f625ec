/** The second in-game variant, in_game_plus_minus.py: substitutions are relabelled
    and sorted last within a clock tick, paired through per-side in/out queues, each
    row is stamped with the first five names of both lineups, and each made shot gets
    a per-row plus/minus. */
module PlusMinus {
  import opened Wrappers
  import opened Text
  import opened Lists

  /** The hard-coded team ids of the script. */
  const HomeTeam: int := 1610612750
  const AwayQueueTeam: int := 1610612742
  const AwayScoringTeam: int := 1610612743

  /** A play-by-play row, reduced to the fields the script reads. */
  datatype Row = Row(
    period: int,
    clock: string,
    actionType: string,
    subType: Option<string>,
    personId: int,
    teamId: Option<int>,
    shotResult: Option<string>)

  // ---------------------------------------------------------------------------
  // Relabelling and the three-key sort

  /** `replace('substitution', 'zsubstitution')` on the actionType column. */
  function Relabel(rows: seq<Row>): (out: seq<Row>)
    ensures |out| == |rows|
    ensures forall i :: 0 <= i < |rows| ==>
      out[i] == rows[i].(actionType := if rows[i].actionType == "substitution" then "zsubstitution" else rows[i].actionType)
  {
    seq(|rows|, i requires 0 <= i < |rows| =>
      rows[i].(actionType := if rows[i].actionType == "substitution" then "zsubstitution" else rows[i].actionType))
  }

  /** Sort order: period ascending, clock descending, actionType ascending. */
  predicate KeyLess(a: Row, b: Row) {
    a.period < b.period
    || (a.period == b.period && LexLess(b.clock, a.clock))
    || (a.period == b.period && a.clock == b.clock && LexLess(a.actionType, b.actionType))
  }

  lemma KeyLessIrreflexive(a: Row)
    ensures !KeyLess(a, a)
  {
    LexLessIrreflexive(a.clock);
    LexLessIrreflexive(a.actionType);
  }

  lemma KeyLessTrans(a: Row, b: Row, c: Row)
    requires KeyLess(a, b) && KeyLess(b, c)
    ensures KeyLess(a, c)
  {
    if a.period == b.period == c.period {
      if LexLess(b.clock, a.clock) && LexLess(c.clock, b.clock) {
        LexLessTrans(c.clock, b.clock, a.clock);
      } else if a.clock == b.clock && b.clock == c.clock {
        LexLessTrans(a.actionType, b.actionType, c.actionType);
      }
    }
  }

  predicate Sorted(rows: seq<Row>) {
    forall i, j :: 0 <= i < j < |rows| ==> !KeyLess(rows[j], rows[i])
  }

  /** Both rows have the same (period, clock, actionType) key. */
  predicate SameKey(a: Row, b: Row) {
    a.period == b.period && a.clock == b.clock && a.actionType == b.actionType
  }

  /** Rows with equal keys are never ordered against each other. */
  lemma SameKeyNotLess(a: Row, b: Row)
    requires SameKey(a, b)
    ensures !KeyLess(a, b)
  {
    LexLessIrreflexive(a.clock);
    LexLessIrreflexive(a.actionType);
  }

  /** If `a` is not before `b` and `b` not before `c`, then `a` is not before `c`. */
  lemma KeyNotLessTrans(a: Row, b: Row, c: Row)
    requires !KeyLess(a, b) && !KeyLess(b, c)
    ensures !KeyLess(a, c)
  {
    LexLessTotal(a.clock, b.clock);
    LexLessTotal(b.clock, c.clock);
    LexLessTotal(a.actionType, b.actionType);
    LexLessTotal(b.actionType, c.actionType);
    if KeyLess(a, c) {
      if a.period == b.period == c.period {
        if a.clock == b.clock && b.clock == c.clock {
          LexLessTrans(a.actionType, c.actionType, b.actionType);
        } else if a.clock == b.clock {
          LexLessAsym(b.clock, c.clock);
        } else if b.clock == c.clock {
          LexLessAsym(a.clock, b.clock);
        } else {
          LexLessTrans(a.clock, b.clock, c.clock);
          LexLessAsym(a.clock, c.clock);
          LexLessIrreflexive(a.clock);
        }
      }
    }
  }

  /** Insert `x` before the first row that does not sort strictly before it, so
      that `x` lands ahead of the rows whose key equals its own. */
  function Insert(x: Row, rows: seq<Row>): (out: seq<Row>)
    ensures multiset(out) == multiset(rows) + multiset{x}
  {
    if |rows| == 0 then [x]
    else if !KeyLess(rows[0], x) then [x] + rows
    else
      assert rows == [rows[0]] + rows[1..];
      [rows[0]] + Insert(x, rows[1..])
  }

  lemma {:induction false} InsertSorted(x: Row, rows: seq<Row>)
    requires Sorted(rows)
    ensures Sorted(Insert(x, rows))
    decreases |rows|
  {
    if |rows| == 0 {
    } else if !KeyLess(rows[0], x) {
      var out := [x] + rows;
      forall i, j | 0 <= i < j < |out|
        ensures !KeyLess(out[j], out[i])
      {
        if i == 0 {
          KeyLessIrreflexive(rows[0]);
          KeyNotLessTrans(out[j], rows[0], x);
        }
      }
    } else {
      InsertSorted(x, rows[1..]);
      var tail := Insert(x, rows[1..]);
      var out := [rows[0]] + tail;
      forall i, j | 0 <= i < j < |out|
        ensures !KeyLess(out[j], out[i])
      {
        if i == 0 {
          assert out[j] in multiset(tail);
          if out[j] == x {
            if KeyLess(x, rows[0]) {
              KeyLessTrans(rows[0], x, rows[0]);
              KeyLessIrreflexive(rows[0]);
            }
          } else {
            assert out[j] in rows[1..];
          }
        }
      }
    }
  }

  /** The rows in sort order (pandas `sort_values` with the three keys). */
  function SortRows(rows: seq<Row>): (out: seq<Row>)
    ensures multiset(out) == multiset(rows)
    ensures |out| == |rows|
  {
    if |rows| == 0 then []
    else
      assert rows == [rows[0]] + rows[1..];
      Insert(rows[0], SortRows(rows[1..]))
  }

  lemma {:induction false} SortRowsSorted(rows: seq<Row>)
    ensures Sorted(SortRows(rows))
  {
    if |rows| > 0 {
      SortRowsSorted(rows[1..]);
      InsertSorted(rows[0], SortRows(rows[1..]));
    }
  }

  /** The rows sharing the key of `k`, in their order. */
  function WithKey(rows: seq<Row>, k: Row): (out: seq<Row>)
    ensures |out| <= |rows|
  {
    if |rows| == 0 then []
    else (if SameKey(rows[0], k) then [rows[0]] else []) + WithKey(rows[1..], k)
  }

  lemma {:induction false} WithKeyInsert(x: Row, rows: seq<Row>, k: Row)
    ensures WithKey(Insert(x, rows), k) == (if SameKey(x, k) then [x] else []) + WithKey(rows, k)
    decreases |rows|
  {
    if |rows| > 0 && KeyLess(rows[0], x) {
      WithKeyInsert(x, rows[1..], k);
      var out := Insert(x, rows);
      assert out[1..] == Insert(x, rows[1..]);
      if SameKey(x, k) && SameKey(rows[0], k) {
        SameKeyNotLess(rows[0], x);
      }
    } else if |rows| > 0 {
      assert ([x] + rows)[1..] == rows;
    }
  }

  /** The sort is stable: rows with equal (period, clock, actionType) keep their
      relative order, as pandas' multi-key `sort_values` keeps them. */
  lemma {:induction false} SortRowsStable(rows: seq<Row>, k: Row)
    ensures WithKey(SortRows(rows), k) == WithKey(rows, k)
  {
    if |rows| > 0 {
      SortRowsStable(rows[1..], k);
      WithKeyInsert(rows[0], SortRows(rows[1..]), k);
    }
  }

  /** Two rows with the same key come out in input order. */
  lemma TiesKeepOrder(a: Row, b: Row)
    requires SameKey(a, b)
    ensures SortRows([a, b]) == [a, b]
  {
    assert [a, b][1..] == [b];
    assert [b][1..] == [];
    SameKeyNotLess(b, a);
  }

  /** After relabelling and sorting, within one period and clock value every
      substitution row comes after every row whose actionType sorts before
      "zsubstitution" (e.g. "2pt", "foul", "freethrow", "rebound", "turnover"). */
  lemma SubstitutionsSortLast(rows: seq<Row>, i: nat, j: nat)
    requires var out := SortRows(Relabel(rows)); i < |out| && j < |out|
    requires var out := SortRows(Relabel(rows));
      && out[i].period == out[j].period && out[i].clock == out[j].clock
      && out[j].actionType == "zsubstitution" && LexLess(out[i].actionType, "zsubstitution")
    ensures i < j
  {
    var out := SortRows(Relabel(rows));
    SortRowsSorted(Relabel(rows));
    assert KeyLess(out[i], out[j]);
    if i == j {
      LexLessIrreflexive("zsubstitution");
    }
  }

  // ---------------------------------------------------------------------------
  // The in/out queues

  datatype Direction = In | Out
  datatype Entry = Entry(dir: Direction, name: Option<string>)
  datatype Queues = Queues(home: seq<Entry>, away: seq<Entry>)

  /** The roster maps (player id to name, player id to team id). */
  datatype Roster = Roster(names: map<int, string>, teamOf: map<int, int>)

  function Lookup<V>(m: map<int, V>, k: int): Option<V> {
    if k in m then Some(m[k]) else None
  }

  /** Queue an 'in'/'out' row on the side of its player's team: the home queue only
      for team 1610612750, the away queue only for team 1610612742. */
  function Enqueue(q: Queues, roster: Roster, row: Row): (q': Queues)
    ensures var e := Entry(if row.subType == Some("in") then In else Out, Lookup(roster.names, row.personId));
      var known := row.subType == Some("in") || row.subType == Some("out");
      && q'.home == (if known && Lookup(roster.teamOf, row.personId) == Some(HomeTeam) then q.home + [e] else q.home)
      && q'.away == (if known && Lookup(roster.teamOf, row.personId) == Some(AwayQueueTeam) then q.away + [e] else q.away)
  {
    var name := Lookup(roster.names, row.personId);
    var team := Lookup(roster.teamOf, row.personId);
    if row.subType == Some("in") then
      if team == Some(HomeTeam) then q.(home := q.home + [Entry(In, name)])
      else if team == Some(AwayQueueTeam) then q.(away := q.away + [Entry(In, name)])
      else q
    else if row.subType == Some("out") then
      if team == Some(HomeTeam) then q.(home := q.home + [Entry(Out, name)])
      else if team == Some(AwayQueueTeam) then q.(away := q.away + [Entry(Out, name)])
      else q
    else q
  }

  /** The index of the first entry going in direction `d`. */
  function FirstOf(queue: seq<Entry>, d: Direction): (r: Option<nat>)
    ensures r.Some? ==> r.value < |queue| && queue[r.value].dir == d
    ensures r.Some? ==> forall k :: 0 <= k < r.value ==> queue[k].dir != d
    ensures r.None? ==> forall k :: 0 <= k < |queue| ==> queue[k].dir != d
  {
    if |queue| == 0 then None
    else if queue[0].dir == d then Some(0)
    else match FirstOf(queue[1..], d)
      case None => None
      case Some(k) => Some(k + 1)
  }

  /** One side's pairing step: with at least two queued entries including an 'out'
      and an 'in', take the earliest of each, drop every entry equal to either,
      remove the out name from the lineup if present and append the in name. */
  function Pair(queue: seq<Entry>, lineup: seq<Option<string>>): (seq<Entry>, seq<Option<string>>) {
    if |queue| < 2 then (queue, lineup)
    else
      match (FirstOf(queue, Out), FirstOf(queue, In))
      case (Some(o), Some(i)) =>
        var outName := queue[o].name;
        var inName := queue[i].name;
        var kept := Without(queue, queue[o], queue[i]);
        var rest := if outName in lineup then Remove(lineup, outName) else lineup;
        (kept, rest + [inName])
      case _ => (queue, lineup)
  }

  /** The loop state: both queues and both name lineups. */
  datatype Lineups = Lineups(queues: Queues, home: seq<Option<string>>, away: seq<Option<string>>)

  /** What a row does before it is stamped. */
  function RowStep(roster: Roster, st: Lineups, row: Row): Lineups {
    if row.actionType != "zsubstitution" then st
    else
      var q := Enqueue(st.queues, roster, row);
      var (hq, h) := Pair(q.home, st.home);
      var (aq, a) := Pair(q.away, st.away);
      Lineups(Queues(hq, aq), h, a)
  }

  /** homeplayer1..5 and awayplayer1..5 of one row. */
  datatype Stamp = Stamp(home: seq<Option<string>>, away: seq<Option<string>>)

  /** The five names of both lineups, or IndexError when either holds fewer. */
  function StampOf(st: Lineups): (r: Result<Stamp>)
    ensures r.Ok? <==> |st.home| >= 5 && |st.away| >= 5
    ensures r.Ok? ==> |r.value.home| == 5 && |r.value.away| == 5
    ensures r.Ok? ==> r.value.home == st.home[..5] && r.value.away == st.away[..5]
  {
    if |st.home| < 5 || |st.away| < 5 then Err(IndexError) else Ok(Stamp(st.home[..5], st.away[..5]))
  }

  /** The lineups after the first `|rows|` rows. */
  function LineupsAfter(roster: Roster, st: Lineups, rows: seq<Row>): Lineups
    decreases |rows|
  {
    if |rows| == 0 then st else RowStep(roster, LineupsAfter(roster, st, rows[..|rows| - 1]), rows[|rows| - 1])
  }

  /** The stamps of all rows, or the error of the first row that cannot be stamped. */
  function StampsOf(roster: Roster, st: Lineups, rows: seq<Row>): Result<seq<Stamp>>
    decreases |rows|
  {
    if |rows| == 0 then Ok([])
    else match StampsOf(roster, st, rows[..|rows| - 1])
      case Err(e) => Err(e)
      case Ok(stamps) =>
        match StampOf(LineupsAfter(roster, st, rows))
        case Err(e) => Err(e)
        case Ok(s) => Ok(stamps + [s])
  }

  /** The stamping loop over the sorted rows, starting from the starters' names. */
  method StampRows(roster: Roster, homeStarters: seq<Option<string>>, awayStarters: seq<Option<string>>,
                   rows: seq<Row>)
    returns (result: Result<seq<Stamp>>)
    ensures result == StampsOf(roster, Lineups(Queues([], []), homeStarters, awayStarters), rows)
  {
    ghost var init := Lineups(Queues([], []), homeStarters, awayStarters);
    var homeQueue: seq<Entry> := [];
    var awayQueue: seq<Entry> := [];
    var home, away := homeStarters, awayStarters;
    var stamps: seq<Stamp> := [];
    var i := 0;
    while i < |rows|
      invariant 0 <= i <= |rows|
      invariant Lineups(Queues(homeQueue, awayQueue), home, away) == LineupsAfter(roster, init, rows[..i])
      invariant StampsOf(roster, init, rows[..i]) == Ok(stamps)
    {
      var row := rows[i];
      assert rows[..i + 1][..i] == rows[..i];
      if row.actionType == "zsubstitution" {
        var q := Enqueue(Queues(homeQueue, awayQueue), roster, row);
        var h := Pair(q.home, home);
        var a := Pair(q.away, away);
        homeQueue, home := h.0, h.1;
        awayQueue, away := a.0, a.1;
      }
      if |home| < 5 || |away| < 5 {
        StampsErrorSticks(roster, init, rows, i + 1, IndexError);
        return Err(IndexError);
      }
      stamps := stamps + [Stamp(home[..5], away[..5])];
      i := i + 1;
    }
    assert rows[..|rows|] == rows;
    return Ok(stamps);
  }

  // ---------------------------------------------------------------------------
  // What the queues guarantee

  /** Rows of any other team, or with a subType other than 'in'/'out', queue nothing. */
  lemma OtherRowsQueueNothing(q: Queues, roster: Roster, row: Row)
    requires (row.subType != Some("in") && row.subType != Some("out"))
             || (Lookup(roster.teamOf, row.personId) != Some(HomeTeam)
                 && Lookup(roster.teamOf, row.personId) != Some(AwayQueueTeam))
    ensures Enqueue(q, roster, row) == q
  {
  }

  /** A pairing step takes the earliest 'out' and the earliest 'in', removes every
      entry equal to either, and appends the in name to the lineup; the lineup keeps
      its length when the out name was on it and grows by one otherwise. */
  lemma PairTakesEarliest(queue: seq<Entry>, lineup: seq<Option<string>>)
    requires |queue| >= 2
    requires exists k :: 0 <= k < |queue| && queue[k].dir == Out
    requires exists k :: 0 <= k < |queue| && queue[k].dir == In
    ensures var o, i := FirstOf(queue, Out).value, FirstOf(queue, In).value;
      var kept, l := Pair(queue, lineup).0, Pair(queue, lineup).1;
      && (forall k :: 0 <= k < o ==> queue[k].dir == In)
      && (forall k :: 0 <= k < i ==> queue[k].dir == Out)
      && (forall e :: e in kept <==> e in queue && e != queue[o] && e != queue[i])
      && |kept| <= |queue| - 2
      && l[|l| - 1] == queue[i].name
      && |l| == (if queue[o].name in lineup then |lineup| else |lineup| + 1)
  {
    var o := FirstOf(queue, Out).value;
    var i := FirstOf(queue, In).value;
    PairParts(queue, lineup, o, i);
    WithoutDropsTwo(queue, o, i);
  }

  lemma PairParts(queue: seq<Entry>, lineup: seq<Option<string>>, o: nat, i: nat)
    requires |queue| >= 2 && FirstOf(queue, Out) == Some(o) && FirstOf(queue, In) == Some(i)
    ensures Pair(queue, lineup).0 == Without(queue, queue[o], queue[i])
    ensures Pair(queue, lineup).1 ==
      (if queue[o].name in lineup then Remove(lineup, queue[o].name) else lineup) + [queue[i].name]
  {
  }

  lemma {:induction false} WithoutDropsTwo(queue: seq<Entry>, o: nat, i: nat)
    requires o < |queue| && i < |queue| && queue[o] != queue[i]
    ensures |Without(queue, queue[o], queue[i])| <= |queue| - 2
  {
    WithoutCount(queue, queue[o], queue[i]);
    assert queue[o] in multiset(queue) && queue[i] in multiset(queue);
  }

  lemma {:induction false} WithoutCount(xs: seq<Entry>, a: Entry, b: Entry)
    requires a != b
    ensures |Without(xs, a, b)| + multiset(xs)[a] + multiset(xs)[b] == |xs|
  {
    if |xs| > 0 {
      WithoutCount(xs[1..], a, b);
      assert xs == [xs[0]] + xs[1..];
    }
  }

  /** Two queued 'out's (or two 'in's) wait: nothing is paired until both directions
      are present. */
  lemma OneDirectionWaits(queue: seq<Entry>, lineup: seq<Option<string>>, d: Direction)
    requires forall k :: 0 <= k < |queue| ==> queue[k].dir == d
    ensures Pair(queue, lineup) == (queue, lineup)
  {
    if |queue| >= 2 {
      if d == Out {
        assert FirstOf(queue, In).None?;
      } else {
        assert FirstOf(queue, Out).None?;
      }
    }
  }

  /** Every row gets a stamp, in order: the first five names of both lineups as they
      stand after that row. */
  lemma {:induction false} StampsCoverRows(roster: Roster, st: Lineups, rows: seq<Row>)
    requires StampsOf(roster, st, rows).Ok?
    ensures |StampsOf(roster, st, rows).value| == |rows|
    ensures forall k :: 0 <= k < |rows| ==>
      StampOf(LineupsAfter(roster, st, rows[..k + 1])) == Ok(StampsOf(roster, st, rows).value[k])
    decreases |rows|
  {
    if |rows| > 0 {
      var init := rows[..|rows| - 1];
      StampsCoverRows(roster, st, init);
      var stamps := StampsOf(roster, st, rows).value;
      forall k | 0 <= k < |rows|
        ensures StampOf(LineupsAfter(roster, st, rows[..k + 1])) == Ok(stamps[k])
      {
        if k < |init| {
          assert rows[..k + 1] == init[..k + 1];
        } else {
          assert rows[..k + 1] == rows;
        }
      }
    }
  }

  /** Once a row cannot be stamped, the whole stamping fails with that error. */
  lemma {:induction false} StampsErrorSticks(roster: Roster, st: Lineups, rows: seq<Row>, k: nat, e: Error)
    requires k <= |rows| && StampsOf(roster, st, rows[..k]) == Err(e)
    ensures StampsOf(roster, st, rows) == Err(e)
    decreases |rows| - k
  {
    if k < |rows| {
      assert rows[..k + 1][..k] == rows[..k];
      StampsErrorSticks(roster, st, rows, k + 1, e);
    } else {
      assert rows[..k] == rows;
    }
  }

  // ---------------------------------------------------------------------------
  // Per-row plus/minus

  /** Points of a made shot: 2, 3 or 1; 0 for anything else. */
  function ShotValue(row: Row): (v: int)
    ensures 0 <= v <= 3
  {
    if row.shotResult != Some("Made") then 0
    else if row.actionType == "2pt" then 2
    else if row.actionType == "3pt" then 3
    else if row.actionType == "freethrow" then 1
    else 0
  }

  /** plus_minus of one row when `away` is the team whose points count against:
      +value for the home team's made shot, -value for `away`'s, 0 otherwise. */
  function PlusMinusOf(away: int, row: Row): (pm: int)
    requires away != HomeTeam
    ensures row.teamId == Some(HomeTeam) ==> pm == ShotValue(row)
    ensures row.teamId == Some(away) ==> pm == -ShotValue(row)
    ensures row.teamId != Some(HomeTeam) && row.teamId != Some(away) ==> pm == 0
  {
    var v := ShotValue(row);
    if v == 0 then 0
    else if row.teamId == Some(HomeTeam) then v
    else if row.teamId == Some(away) then -v
    else 0
  }

  /** As written the away points are negated for team 1610612743, so a made two by
      team 1610612742, whose substitutions fill the away queue, gets plus_minus 0. */
  lemma AwayBasketIgnored()
    ensures var row := Row(1, "PT11M00.00S", "2pt", None, 0, Some(AwayQueueTeam), Some("Made"));
      PlusMinusOf(AwayScoringTeam, row) == 0 && ShotValue(row) == 2
  {
  }

  /** With the away team of the queues (1610612742) also used for the scoring, a
      made shot of either team moves plus_minus by its value, in that team's
      direction; every other row scores 0. Nothing accumulates across rows. */
  lemma PlusMinusCases(row: Row)
    ensures PlusMinusOf(AwayQueueTeam, row) != 0 <==>
      row.shotResult == Some("Made") && row.actionType in ["2pt", "3pt", "freethrow"]
      && (row.teamId == Some(HomeTeam) || row.teamId == Some(AwayQueueTeam))
    ensures -3 <= PlusMinusOf(AwayQueueTeam, row) <= 3
  {
  }

  /** The plus_minus column loop, as written: the away points are those of team
      1610612743. */
  method PlusMinusColumn(rows: seq<Row>) returns (pm: seq<int>)
    ensures |pm| == |rows|
    ensures forall k :: 0 <= k < |rows| ==> pm[k] == PlusMinusOf(AwayScoringTeam, rows[k])
  {
    pm := [];
    var i := 0;
    while i < |rows|
      invariant 0 <= i <= |rows| && |pm| == i
      invariant forall k :: 0 <= k < i ==> pm[k] == PlusMinusOf(AwayScoringTeam, rows[k])
    {
      var row := rows[i];
      var value := 0;
      if row.actionType in ["2pt", "3pt", "freethrow"] && row.shotResult == Some("Made") {
        var points := if row.actionType == "2pt" then 2 else if row.actionType == "3pt" then 3 else 1;
        if row.teamId == Some(HomeTeam) {
          value := points;
        } else if row.teamId == Some(AwayScoringTeam) {
          value := -points;
        }
      }
      pm := pm + [value];
      i := i + 1;
    }
  }
}
