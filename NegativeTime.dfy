/** Time spent trailing by 20 or more points (play_by_play.py:92-145): clock text to
    seconds, seconds elapsed in the game, the "down 20+" intervals of one game, and each
    team's total over its games. Times are integer hundredths of a second. */
module NegativeTime {
  import opened Wrappers
  import opened Text
  import opened Lists
  import opened Numbers
  import opened GameClock
  import opened ScoreMerge

  /** clock_to_seconds: drop every "PT", strip trailing 'S's, split on 'M' into exactly
      two parts, then `int(minutes) * 60 + float(seconds)`; ValueError otherwise. */
  function ClockToSeconds(clock: string): (r: Result<int>)
    ensures r.Err? ==> r.error == ValueError
  {
    var parts := ClockFields(clock);
    if |parts| != 2 then Err(ValueError) else SecondsOf(parts[0], parts[1])
  }

  /** The pieces `clock.replace('PT', '').rstrip('S').split('M')`. */
  function ClockFields(clock: string): seq<string> {
    SplitOn(RStripChar(RemoveAll(clock, "PT"), 'S'), "M")
  }

  /** `int(minutes) * 60 + float(seconds)`, in hundredths. */
  function SecondsOf(minutes: string, seconds: string): (r: Result<int>)
    ensures r.Err? ==> r.error == ValueError
  {
    var m := ParseInt(minutes);
    var s := DecimalHundredths(seconds);
    if m.Some? && s.Some? then Ok(m.value * 6000 + s.value) else Err(ValueError)
  }

  /** "PT" followed by text without a 'P' loses just that prefix. */
  lemma RemoveLeadingPT(body: string)
    requires forall i :: 0 <= i < |body| ==> body[i] != 'P'
    ensures RemoveAll("PT" + body, "PT") == body
  {
    var c := "PT" + body;
    assert c[0..2] == "PT";
    assert Find(c, "PT") == Some(0);
    assert c[2..] == body;
    AbsentFirstChar(body, "PT");
  }

  /** Text with exactly one 'M' splits into the parts before and after it. */
  lemma SplitAtM(a: string, rest: string)
    requires forall i :: 0 <= i < |a| ==> a[i] != 'M'
    requires forall i :: 0 <= i < |rest| ==> rest[i] != 'M'
    ensures SplitOn(a + "M" + rest, "M") == [a, rest]
  {
    var x := a + "M" + rest;
    forall j | 0 <= j < |a|
      ensures !OccursAt(x, "M", j)
    {
      assert x[j..j + 1][0] == x[j] == a[j];
    }
    assert OccursAt(x, "M", |a|);
    assert Find(x, "M") == Some(|a|);
    assert x[..|a|] == a && x[|a| + 1..] == rest;
    AbsentFirstChar(rest, "M");
  }

  /** The clock text "PT<mm>M<ss>.<ff>S" for digit strings mm, ss and ff. */
  function DigitClock(mm: string, ss: string, ff: string): string {
    "PT" + mm + "M" + ss + "." + ff + "S"
  }

  predicate ClockDigits(mm: string, ss: string, ff: string) {
    |mm| >= 1 && |ss| >= 1 && |ff| >= 1 && AllDigits(mm) && AllDigits(ss) && AllDigits(ff)
  }

  /** Such a clock splits into its minutes text and its seconds text. */
  lemma ClockPieces(mm: string, ss: string, ff: string)
    requires ClockDigits(mm, ss, ff)
    ensures ClockFields(DigitClock(mm, ss, ff)) == [mm, ss + "." + ff]
  {
    var rest := ss + "." + ff;
    var x := mm + "M" + rest;
    RestAvoids(ss, ff);
    DigitsAvoid(mm, 'P');
    DigitsAvoid(mm, 'M');
    AvoidsJoin(mm, "M", rest, 'P');
    assert x[|x| - 1] == ff[|ff| - 1];
    assert DigitClock(mm, ss, ff) == "PT" + (x + "S");
    ClockFieldsOf(x);
    SplitAtM(mm, rest);
  }

  /** Stripping the `PT` prefix and the `S` suffix leaves the text between them. */
  lemma ClockFieldsOf(x: string)
    requires Avoids(x, 'P') && |x| > 0 && x[|x| - 1] != 'S'
    ensures ClockFields("PT" + (x + "S")) == SplitOn(x, "M")
  {
    AvoidsJoin(x, "S", [], 'P');
    assert x + "S" + [] == x + "S";
    RemoveLeadingPT(x + "S");
    RStripOne(x, 'S');
  }

  lemma RestAvoids(ss: string, ff: string)
    requires AllDigits(ss) && AllDigits(ff)
    ensures Avoids(ss + "." + ff, 'P') && Avoids(ss + "." + ff, 'M')
  {
    DigitsAvoid(ss, 'P');
    DigitsAvoid(ff, 'P');
    DigitsAvoid(ss, 'M');
    DigitsAvoid(ff, 'M');
    AvoidsJoin(ss, ".", ff, 'P');
    AvoidsJoin(ss, ".", ff, 'M');
  }

  /** No character of `s` is `c`. */
  predicate Avoids(s: string, c: char) {
    forall i :: 0 <= i < |s| ==> s[i] != c
  }

  lemma DigitsAvoid(s: string, c: char)
    requires AllDigits(s) && !IsDigit(c)
    ensures Avoids(s, c)
  {
  }

  lemma AvoidsJoin(a: string, b: string, d: string, c: char)
    requires Avoids(a, c) && Avoids(b, c) && Avoids(d, c)
    ensures Avoids(a + b + d, c)
  {
    var s := a + b + d;
    forall i | 0 <= i < |s|
      ensures s[i] != c
    {
      if i < |a| {
        assert s[i] == a[i];
      } else if i < |a| + |b| {
        assert s[i] == b[i - |a|];
      } else {
        assert s[i] == d[i - |a| - |b|];
      }
    }
  }

  lemma RStripOne(x: string, c: char)
    requires |x| > 0 && x[|x| - 1] != c
    ensures RStripChar(x + [c], c) == x
  {
    assert (x + [c])[..|x|] == x;
  }

  /** Such a clock converts to the minutes, seconds and first two fraction digits it holds. */
  lemma ClockTextSeconds(mm: string, ss: string, ff: string)
    requires ClockDigits(mm, ss, ff)
    ensures ClockToSeconds(DigitClock(mm, ss, ff)).Ok?
    ensures ClockToSeconds(DigitClock(mm, ss, ff)).value
      == DigitsValue(mm) * 6000 + DigitsValue(ss) * 100 + FractionHundredths(ff)
  {
    ClockPieces(mm, ss, ff);
    DigitPartsSeconds(mm, ss, ff);
  }

  lemma DigitPartsSeconds(mm: string, ss: string, ff: string)
    requires ClockDigits(mm, ss, ff)
    ensures SecondsOf(mm, ss + "." + ff).Ok?
    ensures SecondsOf(mm, ss + "." + ff).value == DigitsValue(mm) * 6000 + DigitsValue(ss) * 100 + FractionHundredths(ff)
  {
    DigitsInt(mm);
    DecimalTextValue(ss, ff);
  }

  /** On the feed's clock text "PT<mm>M<ss>.<hh>S" this conversion and the in-game
      parse_clock agree. */
  lemma ClockConversionsAgree(m: nat, sec: nat, h: nat)
    requires m < 100 && sec < 100 && h < 100
    ensures ClockToSeconds(ClockText(m, sec, h)).Ok?
    ensures ClockToSeconds(ClockText(m, sec, h)).value == ParseClock(ClockText(m, sec, h))
  {
    assert ClockText(m, sec, h) == DigitClock(Pad2(m), Pad2(sec), Pad2(h));
    ClockTextSeconds(Pad2(m), Pad2(sec), Pad2(h));
    Pad2Value(m);
    Pad2Value(sec);
    Pad2Fraction(h);
    ParseClockText(m, sec, h);
  }

  lemma Pad2Fraction(h: nat)
    requires h < 100
    ensures FractionHundredths(Pad2(h)) == h
  {
    var f := Pad2(h);
    assert DigitValue(f[0]) == h / 10 && DigitValue(f[1]) == h % 10;
  }

  /** `int()` of a digit string is its value. */
  lemma DigitsInt(mm: string)
    requires |mm| >= 1 && AllDigits(mm)
    ensures ParseInt(mm) == Some(DigitsValue(mm) as int)
  {
    LStripNoEdge(mm);
    RStripNoEdge(mm);
    assert Strip(mm) == mm;
  }

  /** A clock without an 'M' has a single part and raises ValueError. */
  lemma NoMinutesRaises(clock: string)
    requires forall i :: 0 <= i < |clock| ==> clock[i] != 'M'
    ensures ClockToSeconds(clock) == Err(ValueError)
  {
    var t := RStripChar(RemoveAll(clock, "PT"), 'S');
    NoMinutesAfterRemoval(clock);
    assert forall i :: 0 <= i < |t| ==> t[i] != 'M';
    AbsentFirstChar(t, "M");
  }

  lemma {:induction false} NoMinutesAfterRemoval(s: string)
    requires forall i :: 0 <= i < |s| ==> s[i] != 'M'
    ensures forall i :: 0 <= i < |RemoveAll(s, "PT")| ==> RemoveAll(s, "PT")[i] != 'M'
    decreases |s|
  {
    match Find(s, "PT")
    case None =>
    case Some(k) =>
      var tail := s[k + 2..];
      assert forall i :: 0 <= i < |tail| ==> tail[i] == s[k + 2 + i];
      NoMinutesAfterRemoval(tail);
  }

  /** Seconds per period: every period, overtime included, is counted as 12 minutes. */
  const PeriodLength: int := 72000

  /** total_seconds_elapsed: full periods before this one plus the time run off the clock. */
  function Elapsed(period: int, remaining: int): int {
    (period - 1) * PeriodLength + (PeriodLength - remaining)
  }

  /** Elapsed time rises as the clock runs down, and keeps rising into the next period. */
  lemma ElapsedMonotone(p: int, r1: int, q: int, r2: int)
    requires 0 <= r1 <= PeriodLength && 0 <= r2 <= PeriodLength
    requires p < q || (p == q && r1 >= r2)
    ensures Elapsed(p, r1) <= Elapsed(q, r2)
  {
    if p < q {
      assert (q - 1) * PeriodLength >= p * PeriodLength;
    }
  }

  /** The end of one period and the start of the next are the same instant. */
  lemma PeriodBoundary(p: int)
    ensures Elapsed(p, 0) == Elapsed(p + 1, PeriodLength) == p * PeriodLength
  {
  }

  // ---------------------------------------------------------------------------
  // calculate_negative_intervals

  /** The score margin and elapsed time of one row of a game. */
  datatype Sample = Sample(diff: int, elapsed: int)

  /** A (start, end) interval of elapsed time. */
  datatype Span = Span(start: int, end: int)

  /** Down by 20 or more. */
  predicate Trailing(s: Sample) {
    s.diff <= -20
  }

  /** The first index at or after `i` whose row is (`want`) or is not (`!want`) trailing,
      or |rows| when there is none. */
  function NextWhere(rows: seq<Sample>, i: nat, want: bool): (k: nat)
    requires i <= |rows|
    decreases |rows| - i
    ensures i <= k <= |rows|
    ensures forall t :: i <= t < k ==> Trailing(rows[t]) != want
    ensures k < |rows| ==> Trailing(rows[k]) == want
  {
    if i == |rows| || Trailing(rows[i]) == want then i else NextWhere(rows, i + 1, want)
  }

  /** The maximal runs of trailing rows at or after `i`, each as the span from its first
      row's time to the time of the first row after it, or to the last row's time when
      the run reaches the end. This is the reference the loop below is proved against. */
  function Runs(rows: seq<Sample>, i: nat): seq<Span>
    requires i <= |rows|
    decreases |rows| - i, 1
  {
    var j := NextWhere(rows, i, true);
    if j == |rows| then [] else RunFrom(rows, j)
  }

  /** The run beginning at trailing row `j`, followed by the later runs. */
  function RunFrom(rows: seq<Sample>, j: nat): seq<Span>
    requires j < |rows|
    decreases |rows| - j, 0
  {
    var k := NextWhere(rows, j + 1, false);
    if k == |rows| then [Span(rows[j].elapsed, rows[|rows| - 1].elapsed)]
    else [Span(rows[j].elapsed, rows[k].elapsed)] + Runs(rows, k)
  }

  /** Skipping trailing rows does not change where the run they belong to ends. */
  lemma {:induction false} SkipTrailing(rows: seq<Sample>, j: nat, i: nat)
    requires j <= i <= |rows|
    requires forall t :: j <= t < i ==> Trailing(rows[t])
    ensures NextWhere(rows, j, false) == NextWhere(rows, i, false)
    decreases i - j
  {
    if j < i {
      SkipTrailing(rows, j + 1, i);
    }
  }

  /** calculate_negative_intervals: a flag-driven scan that opens an interval at a
      trailing row and closes it at the next non-trailing one; it finds exactly the
      maximal trailing runs, in order. */
  method NegativeIntervals(rows: seq<Sample>) returns (spans: seq<Span>)
    ensures spans == Runs(rows, 0)
  {
    spans := [];
    var inNegative := false;
    var startTime := 0;
    ghost var j := 0;
    var i := 0;
    while i < |rows|
      invariant 0 <= i <= |rows|
      invariant !inNegative ==> Runs(rows, 0) == spans + Runs(rows, i)
      invariant inNegative ==> j < i && startTime == rows[j].elapsed
      invariant inNegative ==> forall t :: j <= t < i ==> Trailing(rows[t])
      invariant inNegative ==> Runs(rows, 0) == spans + RunFrom(rows, j)
    {
      RunsStep(rows, i);
      if rows[i].diff <= -20 && !inNegative {
        inNegative := true;
        startTime := rows[i].elapsed;
        j := i;
      } else if rows[i].diff > -20 && inNegative {
        RunClosesAt(rows, j, i);
        inNegative := false;
        spans := spans + [Span(startTime, rows[i].elapsed)];
      }
      i := i + 1;
    }
    if inNegative {
      RunEndsAtLast(rows, j);
      spans := spans + [Span(startTime, rows[|rows| - 1].elapsed)];
    }
  }

  lemma RunsStep(rows: seq<Sample>, i: nat)
    requires i < |rows|
    ensures Trailing(rows[i]) ==> Runs(rows, i) == RunFrom(rows, i)
    ensures !Trailing(rows[i]) ==> Runs(rows, i) == Runs(rows, i + 1)
  {
  }

  lemma RunClosesAt(rows: seq<Sample>, j: nat, i: nat)
    requires j < i < |rows| && !Trailing(rows[i])
    requires forall t :: j <= t < i ==> Trailing(rows[t])
    ensures RunFrom(rows, j) == [Span(rows[j].elapsed, rows[i].elapsed)] + Runs(rows, i)
  {
    SkipTrailing(rows, j + 1, i);
  }

  lemma RunEndsAtLast(rows: seq<Sample>, j: nat)
    requires j < |rows|
    requires forall t :: j <= t < |rows| ==> Trailing(rows[t])
    ensures RunFrom(rows, j) == [Span(rows[j].elapsed, rows[|rows| - 1].elapsed)]
  {
    SkipTrailing(rows, j + 1, |rows|);
  }

  /** A game never down 20 has no intervals. */
  lemma {:induction false} NeverTrailingNoSpans(rows: seq<Sample>)
    requires forall t :: 0 <= t < |rows| ==> !Trailing(rows[t])
    ensures Runs(rows, 0) == []
  {
  }

  /** A game down 20 throughout has one interval from its first row to its last. */
  lemma AlwaysTrailingOneSpan(rows: seq<Sample>)
    requires |rows| > 0 && forall t :: 0 <= t < |rows| ==> Trailing(rows[t])
    ensures Runs(rows, 0) == [Span(rows[0].elapsed, rows[|rows| - 1].elapsed)]
  {
    SkipTrailing(rows, 1, |rows|);
  }

  /** The summed length of the intervals. */
  function Duration(spans: seq<Span>): int {
    if |spans| == 0 then 0 else Duration(spans[..|spans| - 1]) + (spans[|spans| - 1].end - spans[|spans| - 1].start)
  }

  lemma {:induction false} DurationAppend(a: seq<Span>, b: seq<Span>)
    ensures Duration(a + b) == Duration(a) + Duration(b)
    decreases |b|
  {
    if |b| > 0 {
      assert (a + b)[..|a + b| - 1] == a + b[..|b| - 1];
      assert (a + b)[|a + b| - 1] == b[|b| - 1];
      DurationAppend(a, b[..|b| - 1]);
    } else {
      assert a + b == a;
    }
  }

  predicate TimeOrdered(rows: seq<Sample>) {
    forall a, b :: 0 <= a < b < |rows| ==> rows[a].elapsed <= rows[b].elapsed
  }

  /** With rows in time order the intervals are disjoint pieces of the game, so their total
      lies between zero and the time from row `i` to the last row. */
  lemma {:induction false} RunsWithinGame(rows: seq<Sample>, i: nat)
    requires i < |rows| && TimeOrdered(rows)
    ensures 0 <= Duration(Runs(rows, i)) <= rows[|rows| - 1].elapsed - rows[i].elapsed
    decreases |rows| - i
  {
    var j := NextWhere(rows, i, true);
    if j < |rows| {
      var k := NextWhere(rows, j + 1, false);
      if k == |rows| {
        assert Duration(RunFrom(rows, j)) == rows[|rows| - 1].elapsed - rows[j].elapsed;
      } else {
        RunsWithinGame(rows, k);
        DurationAppend([Span(rows[j].elapsed, rows[k].elapsed)], Runs(rows, k));
      }
    }
  }

  /** Summing one game's intervals (the innermost loop of the team totals). */
  method GameNegativeTime(rows: seq<Sample>) returns (total: int)
    ensures total == Duration(Runs(rows, 0))
  {
    var spans := NegativeIntervals(rows);
    total := 0;
    var i := 0;
    while i < |spans|
      invariant 0 <= i <= |spans|
      invariant total == Duration(spans[..i])
    {
      assert spans[..i + 1][..i] == spans[..i];
      total := total + (spans[i].end - spans[i].start);
      i := i + 1;
    }
    assert spans[..|spans|] == spans;
  }

  // ---------------------------------------------------------------------------
  // Per-team totals

  /** A joined row reduced to what the totals need. */
  datatype Possession = Possession(team: string, gameId: string, diff: int, elapsed: int)

  /** How a clock text converts to the seconds remaining (clock_to_seconds). */
  type ClockReader = string -> Result<int>

  /** The conversion applied to every joined row; one bad clock raises for the whole table. */
  function ToPossessions(ms: seq<Merged>): (r: Result<seq<Possession>>)
    ensures r.Ok? ==> |r.value| == |ms|
  {
    ConvertRows(ms, ClockToSeconds)
  }

  /** The conversion loop with the clock reader as a parameter. */
  function ConvertRows(ms: seq<Merged>, read: ClockReader): (r: Result<seq<Possession>>)
    ensures r.Ok? ==> |r.value| == |ms|
  {
    if |ms| == 0 then Ok([])
    else
      match (ConvertRows(ms[..|ms| - 1], read), read(ms[|ms| - 1].row.clock))
      case (Ok(ps), Ok(remaining)) => Ok(ps + [PossessionOf(ms[|ms| - 1], remaining)])
      case (Err(e), _) => Err(e)
      case (_, Err(e)) => Err(e)
  }

  /** The possession a joined row becomes, given the seconds remaining on its clock. */
  function PossessionOf(m: Merged, remaining: int): Possession {
    Possession(m.game.team, NormalizeId(StripZeros, m.row.gameId), m.diff, Elapsed(m.row.period, remaining))
  }

  /** Some joined row carries a clock that the reader rejects. */
  predicate BadClock(ms: seq<Merged>, read: ClockReader) {
    exists i :: 0 <= i < |ms| && read(ms[i].row.clock).Err?
  }

  lemma BadClockStep(ms: seq<Merged>, read: ClockReader)
    requires |ms| > 0
    ensures BadClock(ms, read) <==> BadClock(ms[..|ms| - 1], read) || read(ms[|ms| - 1].row.clock).Err?
  {
    var init := ms[..|ms| - 1];
    if BadClock(init, read) {
      var i :| 0 <= i < |init| && read(init[i].row.clock).Err?;
      assert init[i] == ms[i];
    }
    if BadClock(ms, read) && !BadClock(init, read) {
      var i :| 0 <= i < |ms| && read(ms[i].row.clock).Err?;
      assert forall j :: 0 <= j < |init| ==> init[j] == ms[j];
    }
  }

  /** The conversion raises exactly when some clock is bad, with the reader's error, and
      otherwise turns each joined row, in order, into its possession. */
  lemma {:induction false} ConvertRowsOutcome(ms: seq<Merged>, read: ClockReader)
    ensures ConvertRows(ms, read).Err? <==> BadClock(ms, read)
    ensures ConvertRows(ms, read).Err? ==> exists i :: 0 <= i < |ms| && read(ms[i].row.clock) == Err(ConvertRows(ms, read).error)
    ensures ConvertRows(ms, read).Ok? ==> forall i :: 0 <= i < |ms| ==>
      read(ms[i].row.clock).Ok? && ConvertRows(ms, read).value[i] == PossessionOf(ms[i], read(ms[i].row.clock).value)
  {
    if |ms| > 0 {
      var init := ms[..|ms| - 1];
      var last := ms[|ms| - 1];
      ConvertRowsOutcome(init, read);
      BadClockStep(ms, read);
      var r := ConvertRows(ms, read);
      if ConvertRows(init, read).Err? {
        var i :| 0 <= i < |init| && read(init[i].row.clock) == Err(ConvertRows(init, read).error);
        assert init[i] == ms[i];
      } else if read(last.row.clock).Err? {
        assert read(ms[|ms| - 1].row.clock) == Err(r.error);
      } else {
        var ps := ConvertRows(init, read).value;
        assert r.value == ps + [PossessionOf(last, read(last.row.clock).value)];
        forall i | 0 <= i < |ms|
          ensures read(ms[i].row.clock).Ok? && r.value[i] == PossessionOf(ms[i], read(ms[i].row.clock).value)
        {
          if i < |init| {
            assert init[i] == ms[i];
          }
        }
      }
    }
  }

  /** The rows of one team's game, in table order. */
  function GameRows(ps: seq<Possession>, team: string, game: string): seq<Sample> {
    if |ps| == 0 then []
    else
      var p := ps[|ps| - 1];
      GameRows(ps[..|ps| - 1], team, game) + (if p.team == team && p.gameId == game then [Sample(p.diff, p.elapsed)] else [])
  }

  function GameIdsOf(ps: seq<Possession>, team: string): (ids: seq<string>)
    ensures forall g :: g in ids ==> exists p :: p in ps && p.team == team && p.gameId == g
  {
    if |ps| == 0 then []
    else
      var p := ps[|ps| - 1];
      GameIdsOf(ps[..|ps| - 1], team) + (if p.team == team then [p.gameId] else [])
  }

  /** The sum over games `gs` of each game's negative time. */
  function GamesTime(ps: seq<Possession>, team: string, gs: seq<string>): int {
    if |gs| == 0 then 0
    else GamesTime(ps, team, gs[..|gs| - 1]) + Duration(Runs(GameRows(ps, team, gs[|gs| - 1]), 0))
  }

  /** A team's total negative time: over its distinct games in first-appearance order. */
  function TeamTime(ps: seq<Possession>, team: string): int {
    GamesTime(ps, team, Unique(GameIdsOf(ps, team)))
  }

  /** One output row. */
  datatype TeamTotal = TeamTotal(team: string, minutes: real)

  /** Hundredths of a second as minutes (`total_negative_time / 60`). */
  function Minutes(hundredths: int): real {
    hundredths as real / 6000.0
  }

  function TeamTotalsOf(ps: seq<Possession>, ts: seq<string>): (rs: seq<TeamTotal>)
    ensures |rs| == |ts| && forall i :: 0 <= i < |ts| ==> rs[i].team == ts[i]
    ensures forall i :: 0 <= i < |ts| ==> rs[i].minutes == Minutes(TeamTime(ps, ts[i]))
  {
    if |ts| == 0 then []
    else TeamTotalsOf(ps, ts[..|ts| - 1]) + [TeamTotal(ts[|ts| - 1], Minutes(TeamTime(ps, ts[|ts| - 1])))]
  }

  method TeamNegativeTime(ps: seq<Possession>, team: string) returns (total: int)
    ensures total == TeamTime(ps, team)
  {
    var gs := Unique(GameIdsOf(ps, team));
    total := 0;
    var i := 0;
    while i < |gs|
      invariant 0 <= i <= |gs|
      invariant total == GamesTime(ps, team, gs[..i])
    {
      assert gs[..i + 1][..i] == gs[..i];
      var t := GameNegativeTime(GameRows(ps, team, gs[i]));
      total := total + t;
      i := i + 1;
    }
    assert gs[..|gs|] == gs;
  }

  /** The results table: one row per team, in the order given. */
  method TeamTotals(ps: seq<Possession>, teams: seq<string>) returns (results: seq<TeamTotal>)
    ensures results == TeamTotalsOf(ps, teams)
  {
    results := [];
    var i := 0;
    while i < |teams|
      invariant 0 <= i <= |teams|
      invariant results == TeamTotalsOf(ps, teams[..i])
    {
      assert teams[..i + 1][..i] == teams[..i];
      var t := TeamNegativeTime(ps, teams[i]);
      results := results + [TeamTotal(teams[i], Minutes(t))];
      i := i + 1;
    }
    assert teams[..|teams|] == teams;
  }

  /** A team whose games are each in time order has a non-negative total. */
  lemma {:induction false} GamesTimeNonNegative(ps: seq<Possession>, team: string, gs: seq<string>)
    requires forall g :: g in gs ==> TimeOrdered(GameRows(ps, team, g))
    ensures GamesTime(ps, team, gs) >= 0
  {
    if |gs| > 0 {
      GamesTimeNonNegative(ps, team, gs[..|gs| - 1]);
      var rows := GameRows(ps, team, gs[|gs| - 1]);
      if |rows| > 0 {
        RunsWithinGame(rows, 0);
      }
    }
  }

  /** The whole computation: join, convert clocks (any bad clock raises), then one total
      per team in first-appearance order. */
  function NegativeTimeReport(rows: seq<ScoreRow>, games: seq<GameRow>): (r: Result<seq<TeamTotal>>)
    ensures r.Err? <==> BadClock(MergeTeams(StripZeros, rows, games, Teams(games)), ClockToSeconds)
    ensures r.Err? ==> r.error == ValueError
    ensures r.Ok? ==> |r.value| == |Teams(games)|
    ensures r.Ok? ==> var ps := ToPossessions(MergeTeams(StripZeros, rows, games, Teams(games)));
      ps.Ok? && forall i :: 0 <= i < |r.value| ==>
        r.value[i] == TeamTotal(Teams(games)[i], Minutes(TeamTime(ps.value, Teams(games)[i])))
  {
    ConvertRowsOutcome(MergeTeams(StripZeros, rows, games, Teams(games)), ClockToSeconds);
    match ToPossessions(MergeTeams(StripZeros, rows, games, Teams(games)))
    case Err(e) => Err(e)
    case Ok(ps) => Ok(TeamTotalsOf(ps, Teams(games)))
  }
}
