/** The lineup/free-throw/interval fold of in_game_play_by_play.py.

    One pass over the game's sorted play-by-play actions keeps each team's on-court
    lineup (a list of player ids), a free-throw-in-progress flag with a queue of
    substitutions deferred until the sequence ends, and the score baseline of the
    current interval. Whenever the ", "-joined name string of either lineup changes,
    the interval since the last change is closed with the score change of both teams;
    after the last action a final interval is always closed. */
module LineupIntervals {
  import opened Wrappers
  import opened Text
  import opened GameClock
  import opened Lists

  /** A play-by-play action, reduced to the fields the fold reads. */
  datatype Action = Action(
    actionType: string,
    subType: Option<string>,
    personId: int,
    timeActual: string,
    scoreHome: int,
    scoreAway: int)

  /** A roster entry of the box score: the player's id and `starter` flag. */
  datatype RosterPlayer = RosterPlayer(personId: int, starter: bool)

  /** The player-id-to-name and player-id-to-team maps and both team ids. */
  datatype Roster = Roster(names: map<int, string>, teamOf: map<int, int>, homeTeamId: int, awayTeamId: int)

  /** One row of the intervals table. */
  datatype Interval = Interval(
    startTime: string,
    endTime: string,
    homeLineup: string,
    awayLineup: string,
    homeScore: int,
    awayScore: int,
    plusMinus: int)

  /** The variables the loop carries from one action to the next. */
  datatype State = State(
    home: seq<int>,
    away: seq<int>,
    inFreeThrow: bool,
    pending: seq<Action>,
    startTime: string,
    startHome: int,
    startAway: int,
    intervals: seq<Interval>)

  const UnknownPlayer: string := "Unknown Player"

  // ---------------------------------------------------------------------------
  // Starters and lineup strings

  /** The ids of starter-flagged players, in roster order. */
  function StarterIds(players: seq<RosterPlayer>): (ids: seq<int>)
    ensures |ids| <= |players|
    ensures forall id :: id in ids ==> exists p :: p in players && p.starter && p.personId == id
  {
    if |players| == 0 then []
    else (if players[0].starter then [players[0].personId] else []) + StarterIds(players[1..])
  }

  /** The first five starter-flagged ids (fewer only draws a warning in the source). */
  function Starters(players: seq<RosterPlayer>): (ids: seq<int>)
    ensures |ids| <= 5 && |ids| <= |StarterIds(players)|
    ensures ids == StarterIds(players)[..|ids|]
    ensures |ids| < 5 ==> ids == StarterIds(players)
  {
    var all := StarterIds(players);
    if |all| <= 5 then all else all[..5]
  }

  function NameOf(r: Roster, pid: int): string {
    if pid in r.names then r.names[pid] else UnknownPlayer
  }

  function Names(r: Roster, lineup: seq<int>): (names: seq<string>)
    ensures |names| == |lineup|
  {
    seq(|lineup|, i requires 0 <= i < |lineup| => NameOf(r, lineup[i]))
  }

  /** `', '.join(player_id_to_name.get(pid, "Unknown Player") for pid in lineup)`. */
  function LineupString(r: Roster, lineup: seq<int>): string {
    Join(Names(r, lineup), Comma)
  }

  // ---------------------------------------------------------------------------
  // Substitutions

  /** One team's lineup after an "out" (drop the player if present) or an "in"
      (append the player if absent); any other subType changes nothing. */
  function Substitute(lineup: seq<int>, pid: int, subType: Option<string>): seq<int> {
    if subType == Some("out") then (if pid in lineup then Remove(lineup, pid) else lineup)
    else if subType == Some("in") then (if pid !in lineup then lineup + [pid] else lineup)
    else lineup
  }

  /** Both lineups after one substitution row; a player without a team changes nothing. */
  function ApplySub(r: Roster, home: seq<int>, away: seq<int>, a: Action): (seq<int>, seq<int>) {
    if a.personId !in r.teamOf then (home, away)
    else if r.teamOf[a.personId] == r.homeTeamId then (Substitute(home, a.personId, a.subType), away)
    else if r.teamOf[a.personId] == r.awayTeamId then (home, Substitute(away, a.personId, a.subType))
    else (home, away)
  }

  /** Both lineups after the queued substitutions, applied in arrival order. */
  function ApplyAll(r: Roster, home: seq<int>, away: seq<int>, subs: seq<Action>): (seq<int>, seq<int>)
    decreases |subs|
  {
    if |subs| == 0 then (home, away)
    else
      var (h, a) := ApplyAll(r, home, away, subs[..|subs| - 1]);
      ApplySub(r, h, a, subs[|subs| - 1])
  }

  // ---------------------------------------------------------------------------
  // The fold

  function Initial(home: seq<int>, away: seq<int>, first: Action): State {
    State(home, away, false, [], first.timeActual, first.scoreHome, first.scoreAway, [])
  }

  /** The interval from the current baseline up to `time`, with the scores then. */
  function Closing(r: Roster, s: State, time: string, scoreHome: int, scoreAway: int): Interval {
    var h := scoreHome - s.startHome;
    var a := scoreAway - s.startAway;
    Interval(s.startTime, time, LineupString(r, s.home), LineupString(r, s.away), h, a, h - a)
  }

  /** Install new lineups; if either name string changed, close the interval at `e`
      and start the next one there. */
  function Update(r: Roster, s: State, home: seq<int>, away: seq<int>, e: Action): State {
    if LineupString(r, home) != LineupString(r, s.home) || LineupString(r, away) != LineupString(r, s.away) then
      s.(home := home, away := away,
         intervals := s.intervals + [Closing(r, s, e.timeActual, e.scoreHome, e.scoreAway)],
         startTime := e.timeActual, startHome := e.scoreHome, startAway := e.scoreAway)
    else s.(home := home, away := away)
  }

  /** One iteration of the loop. */
  function Step(r: Roster, s: State, e: Action): State {
    var open := s.inFreeThrow || IsStartOfFreeThrow(e.actionType, e.subType);
    if open then
      if e.actionType == "substitution" then s.(inFreeThrow := true, pending := s.pending + [e])
      else if IsEndOfFreeThrow(e.actionType, e.subType) then
        var (h, a) := ApplyAll(r, s.home, s.away, s.pending);
        Update(r, s.(inFreeThrow := false, pending := []), h, a, e)
      else s.(inFreeThrow := true)
    else if e.actionType == "substitution" && e.personId in r.teamOf then
      var (h, a) := ApplySub(r, s.home, s.away, e);
      Update(r, s, h, a, e)
    else s
  }

  function Run(r: Roster, s: State, actions: seq<Action>): State
    decreases |actions|
  {
    if |actions| == 0 then s else Step(r, Run(r, s, actions[..|actions| - 1]), actions[|actions| - 1])
  }

  /** The intervals table for a non-empty action list; None where the source fails
      on an empty one (it reads the first row's scores). */
  function IntervalsOf(r: Roster, homePlayers: seq<RosterPlayer>, awayPlayers: seq<RosterPlayer>,
                       actions: seq<Action>): Option<seq<Interval>>
  {
    if |actions| == 0 then None
    else
      var first := actions[0];
      var last := actions[|actions| - 1];
      var s := Run(r, Initial(Starters(homePlayers), Starters(awayPlayers), first), actions);
      Some(s.intervals + [Closing(r, s, last.timeActual, last.scoreHome, last.scoreAway)])
  }

  // ---------------------------------------------------------------------------
  // The loop itself

  /** One substitution row applied to the two lineups (the source's duplicated
      in/out branches). */
  method ApplySubstitution(r: Roster, home: seq<int>, away: seq<int>, a: Action)
    returns (home': seq<int>, away': seq<int>)
    ensures (home', away') == ApplySub(r, home, away, a)
  {
    home', away' := home, away;
    var teamId: Option<int> := if a.personId in r.teamOf then Some(r.teamOf[a.personId]) else None;
    if teamId == None {
      return;
    }
    var pid := a.personId;
    if teamId.value == r.homeTeamId {
      if a.subType == Some("out") {
        if pid in home' {
          home' := Remove(home', pid);
        }
      } else if a.subType == Some("in") {
        if pid !in home' {
          home' := home' + [pid];
        }
      }
    } else if teamId.value == r.awayTeamId {
      if a.subType == Some("out") {
        if pid in away' {
          away' := Remove(away', pid);
        }
      } else if a.subType == Some("in") {
        if pid !in away' {
          away' := away' + [pid];
        }
      }
    }
  }

  /** The pending-substitution loop run when a free-throw sequence ends. */
  method ApplyPending(r: Roster, home: seq<int>, away: seq<int>, pending: seq<Action>)
    returns (home': seq<int>, away': seq<int>)
    ensures (home', away') == ApplyAll(r, home, away, pending)
  {
    home', away' := home, away;
    var j := 0;
    while j < |pending|
      invariant 0 <= j <= |pending|
      invariant (home', away') == ApplyAll(r, home, away, pending[..j])
    {
      assert pending[..j + 1][..j] == pending[..j];
      home', away' := ApplySubstitution(r, home', away', pending[j]);
      j := j + 1;
    }
    assert pending[..|pending|] == pending;
  }

  /** The body of the main loop for one action. */
  method Advance(r: Roster, s: State, e: Action) returns (t: State)
    ensures t == Step(r, s, e)
  {
    var home, away := s.home, s.away;
    var inFreeThrow, pending := s.inFreeThrow, s.pending;
    var startTime, startHome, startAway := s.startTime, s.startHome, s.startAway;
    var intervals := s.intervals;
    var homeStr, awayStr := LineupString(r, home), LineupString(r, away);
    var changed := false;
    if IsStartOfFreeThrow(e.actionType, e.subType) {
      inFreeThrow := true;
    }
    if inFreeThrow {
      if e.actionType == "substitution" {
        pending := pending + [e];
      } else if IsEndOfFreeThrow(e.actionType, e.subType) {
        inFreeThrow := false;
        home, away := ApplyPending(r, home, away, pending);
        pending := [];
        changed := true;
      }
    } else if e.actionType == "substitution" && e.personId in r.teamOf {
      home, away := ApplySubstitution(r, home, away, e);
      changed := true;
    }
    if changed {
      var newHomeStr := LineupString(r, home);
      var newAwayStr := LineupString(r, away);
      if newHomeStr != homeStr || newAwayStr != awayStr {
        var h := e.scoreHome - startHome;
        var a := e.scoreAway - startAway;
        intervals := intervals + [Interval(startTime, e.timeActual, homeStr, awayStr, h, a, h - a)];
        startTime, startHome, startAway := e.timeActual, e.scoreHome, e.scoreAway;
      }
    }
    t := State(home, away, inFreeThrow, pending, startTime, startHome, startAway, intervals);
  }

  /** The script's main loop and final interval, over the sorted actions. */
  method ComputeIntervals(r: Roster, homePlayers: seq<RosterPlayer>, awayPlayers: seq<RosterPlayer>,
                          actions: seq<Action>)
    returns (result: Option<seq<Interval>>)
    ensures result == IntervalsOf(r, homePlayers, awayPlayers, actions)
  {
    if |actions| == 0 {
      return None;
    }
    var s := Initial(Starters(homePlayers), Starters(awayPlayers), actions[0]);
    ghost var init := s;
    var i := 0;
    while i < |actions|
      invariant 0 <= i <= |actions|
      invariant s == Run(r, init, actions[..i])
    {
      assert actions[..i + 1][..i] == actions[..i];
      s := Advance(r, s, actions[i]);
      i := i + 1;
    }
    assert actions[..|actions|] == actions;
    var last := actions[|actions| - 1];
    var h := last.scoreHome - s.startHome;
    var a := last.scoreAway - s.startAway;
    var final := Interval(s.startTime, last.timeActual, LineupString(r, s.home), LineupString(r, s.away), h, a, h - a);
    return Some(s.intervals + [final]);
  }

  // ---------------------------------------------------------------------------
  // What the fold guarantees

  function SumHome(ivs: seq<Interval>): int {
    if |ivs| == 0 then 0 else SumHome(ivs[..|ivs| - 1]) + ivs[|ivs| - 1].homeScore
  }

  function SumAway(ivs: seq<Interval>): int {
    if |ivs| == 0 then 0 else SumAway(ivs[..|ivs| - 1]) + ivs[|ivs| - 1].awayScore
  }

  function SumPlusMinus(ivs: seq<Interval>): int {
    if |ivs| == 0 then 0 else SumPlusMinus(ivs[..|ivs| - 1]) + ivs[|ivs| - 1].plusMinus
  }

  /** Intervals follow each other without gaps. */
  predicate Chained(ivs: seq<Interval>) {
    forall k :: 0 <= k < |ivs| - 1 ==> ivs[k + 1].startTime == ivs[k].endTime
  }

  predicate Balanced(ivs: seq<Interval>) {
    forall k :: 0 <= k < |ivs| ==> ivs[k].plusMinus == ivs[k].homeScore - ivs[k].awayScore
  }

  /** What holds of the loop state after every action, relative to the first action. */
  predicate Consistent(s: State, first: Action) {
    && (|s.intervals| == 0 ==> s.startTime == first.timeActual)
    && (|s.intervals| > 0 ==> s.intervals[0].startTime == first.timeActual
                              && s.startTime == s.intervals[|s.intervals| - 1].endTime)
    && Chained(s.intervals)
    && Balanced(s.intervals)
    && SumHome(s.intervals) == s.startHome - first.scoreHome
    && SumAway(s.intervals) == s.startAway - first.scoreAway
    && SumPlusMinus(s.intervals) == SumHome(s.intervals) - SumAway(s.intervals)
    && (!s.inFreeThrow ==> s.pending == [])
  }

  lemma AppendClosing(r: Roster, s: State, first: Action, time: string, scoreHome: int, scoreAway: int)
    requires Consistent(s, first)
    ensures var ivs := s.intervals + [Closing(r, s, time, scoreHome, scoreAway)];
      && ivs[0].startTime == first.timeActual
      && ivs[|ivs| - 1].endTime == time
      && Chained(ivs) && Balanced(ivs)
      && SumHome(ivs) == scoreHome - first.scoreHome
      && SumAway(ivs) == scoreAway - first.scoreAway
      && SumPlusMinus(ivs) == SumHome(ivs) - SumAway(ivs)
  {
    var ivs := s.intervals + [Closing(r, s, time, scoreHome, scoreAway)];
    assert ivs[..|ivs| - 1] == s.intervals;
  }

  lemma UpdateConsistent(r: Roster, s: State, home: seq<int>, away: seq<int>, e: Action, first: Action)
    requires Consistent(s, first)
    ensures Consistent(Update(r, s, home, away, e), first)
  {
    if LineupString(r, home) != LineupString(r, s.home) || LineupString(r, away) != LineupString(r, s.away) {
      AppendClosing(r, s, first, e.timeActual, e.scoreHome, e.scoreAway);
    }
  }

  lemma StepConsistent(r: Roster, s: State, e: Action, first: Action)
    requires Consistent(s, first)
    ensures Consistent(Step(r, s, e), first)
  {
    var open := s.inFreeThrow || IsStartOfFreeThrow(e.actionType, e.subType);
    if open {
      if e.actionType != "substitution" && IsEndOfFreeThrow(e.actionType, e.subType) {
        var (h, a) := ApplyAll(r, s.home, s.away, s.pending);
        UpdateConsistent(r, s.(inFreeThrow := false, pending := []), h, a, e, first);
      }
    } else if e.actionType == "substitution" && e.personId in r.teamOf {
      var (h, a) := ApplySub(r, s.home, s.away, e);
      UpdateConsistent(r, s, h, a, e, first);
    }
  }

  lemma {:induction false} RunConsistent(r: Roster, s: State, actions: seq<Action>, first: Action)
    requires Consistent(s, first)
    ensures Consistent(Run(r, s, actions), first)
    decreases |actions|
  {
    if |actions| > 0 {
      RunConsistent(r, s, actions[..|actions| - 1], first);
      StepConsistent(r, Run(r, s, actions[..|actions| - 1]), actions[|actions| - 1], first);
    }
  }

  /** The intervals chain without gaps from the first action's time to the last
      action's time; each Plus/Minus is Home Score - Away Score; and the Home (Away)
      Scores add up to the last action's home (away) score minus the first's. */
  lemma IntervalsTelescope(r: Roster, homePlayers: seq<RosterPlayer>, awayPlayers: seq<RosterPlayer>,
                           actions: seq<Action>)
    requires |actions| > 0
    ensures IntervalsOf(r, homePlayers, awayPlayers, actions).Some?
    ensures var ivs := IntervalsOf(r, homePlayers, awayPlayers, actions).value;
      var first := actions[0];
      var last := actions[|actions| - 1];
      && |ivs| >= 1
      && ivs[0].startTime == first.timeActual
      && Chained(ivs)
      && ivs[|ivs| - 1].endTime == last.timeActual
      && Balanced(ivs)
      && SumHome(ivs) == last.scoreHome - first.scoreHome
      && SumAway(ivs) == last.scoreAway - first.scoreAway
      && SumPlusMinus(ivs) == (last.scoreHome - first.scoreHome) - (last.scoreAway - first.scoreAway)
  {
    var first := actions[0];
    var last := actions[|actions| - 1];
    var init := Initial(Starters(homePlayers), Starters(awayPlayers), first);
    RunConsistent(r, init, actions, first);
    AppendClosing(r, Run(r, init, actions), first, last.timeActual, last.scoreHome, last.scoreAway);
  }

  /** An empty action list has no intervals table (the source raises). */
  lemma NoActionsNoTable(r: Roster, homePlayers: seq<RosterPlayer>, awayPlayers: seq<RosterPlayer>)
    ensures IntervalsOf(r, homePlayers, awayPlayers, []) == None
  {
  }

  // ---------------------------------------------------------------------------
  // Free-throw deferral

  /** While a free-throw sequence is open and the action does not end it, lineups and
      intervals stay put; a substitution is only queued. */
  lemma DeferredWhileOpen(r: Roster, s: State, e: Action)
    requires s.inFreeThrow || IsStartOfFreeThrow(e.actionType, e.subType)
    requires e.actionType == "substitution" || !IsEndOfFreeThrow(e.actionType, e.subType)
    ensures var t := Step(r, s, e);
      && t.inFreeThrow
      && t.home == s.home && t.away == s.away && t.intervals == s.intervals
      && t.pending == s.pending + (if e.actionType == "substitution" then [e] else [])
  {
  }

  /** The ending free throw clears the flag, applies the queue in arrival order,
      empties it, and closes at most one interval. */
  lemma EndAppliesQueue(r: Roster, s: State, e: Action)
    requires s.inFreeThrow || IsStartOfFreeThrow(e.actionType, e.subType)
    requires e.actionType != "substitution" && IsEndOfFreeThrow(e.actionType, e.subType)
    ensures var t := Step(r, s, e);
      && !t.inFreeThrow && t.pending == []
      && (t.home, t.away) == ApplyAll(r, s.home, s.away, s.pending)
      && (t.intervals == s.intervals || t.intervals == s.intervals + [Closing(r, s, e.timeActual, e.scoreHome, e.scoreAway)])
  {
  }

  /** A "1 of 1" free throw opens and closes the sequence on the same action. */
  lemma OneOfOneClosesAtOnce(r: Roster, s: State, subType: string, personId: int, time: string, sh: int, sa: int)
    requires subType == ShotLabel(1, 1)
    ensures var t := Step(r, s, Action("freethrow", Some(subType), personId, time, sh, sa));
      !t.inFreeThrow && t.pending == [] && (t.home, t.away) == ApplyAll(r, s.home, s.away, s.pending)
  {
    StartOfFreeThrowLabel(1);
    EndOfFreeThrowLabel(1, 1);
  }

  // ---------------------------------------------------------------------------
  // Lineups never hold a player twice

  lemma SubstituteDistinct(lineup: seq<int>, pid: int, subType: Option<string>)
    requires Distinct(lineup)
    ensures Distinct(Substitute(lineup, pid, subType))
  {
    if subType == Some("out") && pid in lineup {
      RemoveDistinct(lineup, pid);
    } else if subType == Some("in") && pid !in lineup {
      AppendDistinct(lineup, pid);
    }
  }

  lemma {:induction false} ApplyAllDistinct(r: Roster, home: seq<int>, away: seq<int>, subs: seq<Action>)
    requires Distinct(home) && Distinct(away)
    ensures Distinct(ApplyAll(r, home, away, subs).0) && Distinct(ApplyAll(r, home, away, subs).1)
    decreases |subs|
  {
    if |subs| > 0 {
      ApplyAllDistinct(r, home, away, subs[..|subs| - 1]);
      var (h, a) := ApplyAll(r, home, away, subs[..|subs| - 1]);
      var e := subs[|subs| - 1];
      SubstituteDistinct(h, e.personId, e.subType);
      SubstituteDistinct(a, e.personId, e.subType);
    }
  }

  /** "out" removes only a present player and "in" appends only an absent one, so a
      lineup that starts without repeated ids never gets one. */
  lemma {:induction false} RunKeepsLineupsDistinct(r: Roster, s: State, actions: seq<Action>)
    requires Distinct(s.home) && Distinct(s.away)
    ensures Distinct(Run(r, s, actions).home) && Distinct(Run(r, s, actions).away)
    decreases |actions|
  {
    if |actions| > 0 {
      RunKeepsLineupsDistinct(r, s, actions[..|actions| - 1]);
      StepKeepsDistinct(r, Run(r, s, actions[..|actions| - 1]), actions[|actions| - 1]);
    }
  }

  lemma StepKeepsDistinct(r: Roster, s: State, e: Action)
    requires Distinct(s.home) && Distinct(s.away)
    ensures Distinct(Step(r, s, e).home) && Distinct(Step(r, s, e).away)
  {
    var open := s.inFreeThrow || IsStartOfFreeThrow(e.actionType, e.subType);
    if open {
      if e.actionType != "substitution" && IsEndOfFreeThrow(e.actionType, e.subType) {
        ApplyAllDistinct(r, s.home, s.away, s.pending);
        var (h, a) := ApplyAll(r, s.home, s.away, s.pending);
        UpdateInstalls(r, s.(inFreeThrow := false, pending := []), h, a, e);
      }
    } else if e.actionType == "substitution" && e.personId in r.teamOf {
      var (h, a) := ApplySub(r, s.home, s.away, e);
      SubstituteDistinct(s.home, e.personId, e.subType);
      SubstituteDistinct(s.away, e.personId, e.subType);
      assert Distinct(h) && Distinct(a);
      UpdateInstalls(r, s, h, a, e);
    }
  }

  lemma UpdateInstalls(r: Roster, s: State, home: seq<int>, away: seq<int>, e: Action)
    ensures Update(r, s, home, away, e).home == home && Update(r, s, home, away, e).away == away
  {
  }

  // ---------------------------------------------------------------------------
  // An "out" and an "in" each close an interval

  function SumNameLengths(r: Roster, lineup: seq<int>): nat {
    SumLengths(Names(r, lineup))
  }

  lemma {:induction false} NamesLengthCons(r: Roster, lineup: seq<int>)
    requires |lineup| > 0
    ensures SumNameLengths(r, lineup) == |NameOf(r, lineup[0])| + SumNameLengths(r, lineup[1..])
  {
    assert Names(r, lineup)[1..] == Names(r, lineup[1..]);
  }

  lemma {:induction false} RemoveNameLength(r: Roster, xs: seq<int>, x: int)
    requires x in xs
    ensures SumNameLengths(r, Remove(xs, x)) + |NameOf(r, x)| == SumNameLengths(r, xs)
  {
    NamesLengthCons(r, xs);
    if xs[0] != x {
      RemoveNameLength(r, xs[1..], x);
      var ys := [xs[0]] + Remove(xs[1..], x);
      NamesLengthCons(r, ys);
      assert ys[1..] == Remove(xs[1..], x);
    }
  }

  lemma {:induction false} AppendNameLength(r: Roster, xs: seq<int>, x: int)
    ensures SumNameLengths(r, xs + [x]) == SumNameLengths(r, xs) + |NameOf(r, x)|
    decreases |xs|
  {
    if |xs| == 0 {
      assert xs + [x] == [x];
      assert Names(r, [x]) == [NameOf(r, x)];
      assert SumLengths([NameOf(r, x)]) == |NameOf(r, x)| + SumLengths([]);
    } else {
      NamesLengthCons(r, xs + [x]);
      assert (xs + [x])[1..] == xs[1..] + [x];
      AppendNameLength(r, xs[1..], x);
      NamesLengthCons(r, xs);
    }
  }

  lemma LineupStringLength(r: Roster, lineup: seq<int>)
    requires |lineup| >= 1
    ensures |LineupString(r, lineup)| == SumNameLengths(r, lineup) + 2 * (|lineup| - 1)
  {
    JoinLength(Names(r, lineup), Comma);
  }

  /** Taking a player out of a lineup of two or more changes its name string. */
  lemma OutChangesString(r: Roster, lineup: seq<int>, pid: int)
    requires pid in lineup && |lineup| >= 2
    ensures LineupString(r, Remove(lineup, pid)) != LineupString(r, lineup)
  {
    LineupStringLength(r, lineup);
    LineupStringLength(r, Remove(lineup, pid));
    RemoveNameLength(r, lineup, pid);
  }

  /** Bringing a new player into a non-empty lineup changes its name string. */
  lemma InChangesString(r: Roster, lineup: seq<int>, pid: int)
    requires pid !in lineup && |lineup| >= 1
    ensures LineupString(r, lineup + [pid]) != LineupString(r, lineup)
  {
    LineupStringLength(r, lineup);
    LineupStringLength(r, lineup + [pid]);
    AppendNameLength(r, lineup, pid);
  }

  /** Outside a free-throw sequence, a home "out" row for a player on the court closes
      an interval, and the following "in" row for a bench player closes another, which
      covers the lineup short of the player who left. */
  lemma OutThenInClosesTwo(r: Roster, s: State, out: Action, into: Action)
    requires !s.inFreeThrow
    requires out.actionType == "substitution" && out.subType == Some("out")
    requires into.actionType == "substitution" && into.subType == Some("in")
    requires out.personId in r.teamOf && r.teamOf[out.personId] == r.homeTeamId
    requires into.personId in r.teamOf && r.teamOf[into.personId] == r.homeTeamId
    requires out.personId in s.home && |s.home| >= 2
    requires into.personId !in s.home
    ensures var t := Step(r, s, out);
      var u := Step(r, t, into);
      && |t.intervals| == |s.intervals| + 1
      && |u.intervals| == |s.intervals| + 2
      && u.intervals[|u.intervals| - 1].homeLineup == LineupString(r, Remove(s.home, out.personId))
      && u.home == Remove(s.home, out.personId) + [into.personId]
  {
    OutChangesString(r, s.home, out.personId);
    var h := Remove(s.home, out.personId);
    assert into.personId !in h;
    InChangesString(r, h, into.personId);
  }

  // ---------------------------------------------------------------------------
  // The expanded workbook: lineup strings split back into player columns

  /** Splitting a lineup string on ", " (the "Home Player k" columns) gives the
      lineup's names in order, provided no name contains ", ". */
  lemma LineupColumns(r: Roster, lineup: seq<int>)
    requires |lineup| >= 1
    requires forall pid :: pid in r.names ==> !Contains(r.names[pid], Comma)
    ensures SplitOn(LineupString(r, lineup), Comma) == Names(r, lineup)
  {
    var names := Names(r, lineup);
    forall i | 0 <= i < |names|
      ensures !Contains(names[i], Comma)
    {
      if lineup[i] !in r.names {
        assert names[i] == UnknownPlayer;
        NoCommaNoSeparator(UnknownPlayer);
      }
    }
    SplitJoinComma(names);
  }
}
