/** nba_yby_stats.py: the active players of the league list (falling back to the latest
    TO_YEAR), minus the current Wolves roster, and the collection of their career tables
    with a list of the players whose table could not be built. The league list, the
    roster ids and each player's career table are parameters. */
module ActivePlayers {
  import opened Wrappers
  import opened Text
  import opened Career
  import Lists

  /** A row of the all-players list: PERSON_ID, DISPLAY_FIRST_LAST and TO_YEAR (text, or null). */
  datatype Listed = Listed(personId: int, name: string, toYear: Option<string>)

  /** `TO_YEAR.str.startswith("2023", na=False)`. */
  predicate IsCurrent(p: Listed) {
    p.toYear.Some? && StartsWith(p.toYear.value, "2023")
  }

  function CurrentOnly(players: seq<Listed>): (r: seq<Listed>)
    ensures |r| <= |players|
    ensures forall p :: p in r <==> p in players && IsCurrent(p)
  {
    if |players| == 0 then []
    else
      var rest := CurrentOnly(players[1..]);
      assert forall p :: p in players <==> p == players[0] || p in players[1..];
      (if IsCurrent(players[0]) then [players[0]] else []) + rest
  }

  /** The mask keeps the list's order and repetitions: two stretches are filtered
      separately, and one row is kept exactly when it is current. */
  lemma {:induction false} CurrentOnlyAppend(a: seq<Listed>, b: seq<Listed>)
    ensures CurrentOnly(a + b) == CurrentOnly(a) + CurrentOnly(b)
    ensures |a| == 1 ==> CurrentOnly(a) == (if IsCurrent(a[0]) then a else [])
  {
    assert |a| == 1 ==> CurrentOnly(a) == (if IsCurrent(a[0]) then a else []) by {
      if |a| == 1 {
        assert a[1..] == [];
      }
    }
    if |a| == 0 {
      assert a + b == b;
    } else {
      var first := if IsCurrent(a[0]) then [a[0]] else [];
      assert CurrentOnly(a + b) == first + CurrentOnly(a[1..] + b) by {
        assert (a + b)[0] == a[0] && (a + b)[1..] == a[1..] + b;
      }
      CurrentOnlyAppend(a[1..], b);
      Lists.Regroup(first, CurrentOnly(a[1..]), CurrentOnly(b));
    }
  }

  /** `TO_YEAR.max()`: the greatest non-null TO_YEAR in string order; None (NaN) when all
      are null. */
  function MaxToYear(players: seq<Listed>): (r: Option<string>)
    ensures r.None? <==> forall p :: p in players ==> p.toYear.None?
    ensures r.Some? ==> exists p :: p in players && p.toYear == r
    ensures r.Some? ==>
      forall p :: p in players && p.toYear.Some? ==> !LexLess(r.value, p.toYear.value)
  {
    if |players| == 0 then None
    else
      var rest := MaxToYear(players[1..]);
      var y := players[0].toYear;
      assert forall p :: p in players <==> p == players[0] || p in players[1..];
      if y.None? then rest
      else if rest.None? then
        LexLessIrreflexive(y.value);
        y
      else if LexLess(y.value, rest.value) then
        forall p | p in players && p.toYear.Some?
          ensures !LexLess(rest.value, p.toYear.value)
        {
          if p == players[0] {
            LexLessAsym(y.value, rest.value);
          }
        }
        rest
      else
        forall p | p in players && p.toYear.Some?
          ensures !LexLess(y.value, p.toYear.value)
        {
          if p != players[0] {
            assert !LexLess(rest.value, p.toYear.value);
            LexLessTotal(y.value, rest.value);
            if LexLess(y.value, p.toYear.value) {
              LexLessTotal(rest.value, p.toYear.value);
              if rest.value != y.value {
                LexLessTrans(rest.value, y.value, p.toYear.value);
              }
            }
          } else {
            LexLessIrreflexive(y.value);
          }
        }
        y
  }

  function WithToYear(players: seq<Listed>, y: Option<string>): (r: seq<Listed>)
    ensures forall p :: p in r <==> p in players && p.toYear == y
  {
    if |players| == 0 then []
    else
      var rest := WithToYear(players[1..], y);
      assert forall p :: p in players <==> p == players[0] || p in players[1..];
      (if players[0].toYear == y then [players[0]] else []) + rest
  }

  /** `df[df.TO_YEAR == y]` keeps order and repetitions in the same way. */
  lemma {:induction false} WithToYearAppend(a: seq<Listed>, b: seq<Listed>, y: Option<string>)
    ensures WithToYear(a + b, y) == WithToYear(a, y) + WithToYear(b, y)
    ensures |a| == 1 ==> WithToYear(a, y) == (if a[0].toYear == y then a else [])
  {
    assert |a| == 1 ==> WithToYear(a, y) == (if a[0].toYear == y then a else []) by {
      if |a| == 1 {
        assert a[1..] == [];
      }
    }
    if |a| == 0 {
      assert a + b == b;
    } else {
      var first := if a[0].toYear == y then [a[0]] else [];
      assert WithToYear(a + b, y) == first + WithToYear(a[1..] + b, y) by {
        assert (a + b)[0] == a[0] && (a + b)[1..] == a[1..] + b;
      }
      WithToYearAppend(a[1..], b, y);
      Lists.Regroup(first, WithToYear(a[1..], y), WithToYear(b, y));
    }
  }

  /** get_all_active_players: the rows whose TO_YEAR starts with "2023"; when there are
      none, the rows whose TO_YEAR equals the greatest one. */
  function ActiveOf(players: seq<Listed>): (r: seq<Listed>)
    ensures (exists p :: p in players && IsCurrent(p)) ==>
      forall p :: p in r <==> p in players && IsCurrent(p)
    ensures (forall p :: p in players ==> !IsCurrent(p)) ==>
      forall p :: p in r <==> p in players && MaxToYear(players).Some? && p.toYear == MaxToYear(players)
    ensures (exists p :: p in players && IsCurrent(p)) ==> r == CurrentOnly(players)
    ensures (forall p :: p in players ==> !IsCurrent(p)) ==>
      r == (if MaxToYear(players).None? then [] else WithToYear(players, MaxToYear(players)))
  {
    var current := CurrentOnly(players);
    if |current| > 0 then
      assert current[0] in current;
      current
    else
      var top := MaxToYear(players);
      if top.None? then [] else WithToYear(players, top)
  }

  /** A player after the roster exclusion and the rename to PLAYER_ID / PLAYER. */
  datatype Candidate = Candidate(playerId: int, player: string)

  /** get_non_wolves_players: the active players whose PERSON_ID is not on the roster,
      in list order. */
  function NonWolves(active: seq<Listed>, roster: seq<int>): (r: seq<Candidate>)
    ensures |r| <= |active|
    ensures forall c :: c in r <==> exists p :: p in active && p.personId !in roster && c == Candidate(p.personId, p.name)
  {
    if |active| == 0 then []
    else
      var rest := NonWolves(active[1..], roster);
      var p := active[0];
      assert forall x :: x in active <==> x == p || x in active[1..];
      (if p.personId !in roster then [Candidate(p.personId, p.name)] else []) + rest
  }

  /** The roster exclusion keeps the active list's order and repetitions: two stretches
      are processed separately, and one player gives one candidate exactly when off the
      roster. */
  lemma {:induction false} NonWolvesAppend(a: seq<Listed>, b: seq<Listed>, roster: seq<int>)
    ensures NonWolves(a + b, roster) == NonWolves(a, roster) + NonWolves(b, roster)
    ensures |a| == 1 ==>
      NonWolves(a, roster) == (if a[0].personId !in roster then [Candidate(a[0].personId, a[0].name)] else [])
  {
    assert |a| == 1 ==> NonWolves(a, roster) == (if a[0].personId !in roster then [Candidate(a[0].personId, a[0].name)] else []) by {
      if |a| == 1 {
        assert a[1..] == [];
      }
    }
    if |a| == 0 {
      assert a + b == b;
    } else {
      var first := if a[0].personId !in roster then [Candidate(a[0].personId, a[0].name)] else [];
      assert NonWolves(a + b, roster) == first + NonWolves(a[1..] + b, roster) by {
        assert (a + b)[0] == a[0] && (a + b)[1..] == a[1..] + b;
      }
      NonWolvesAppend(a[1..], b, roster);
      Lists.Regroup(first, NonWolves(a[1..], roster), NonWolves(b, roster));
    }
  }

  /** The tables of the candidates processed so far, in order. */
  function Collected(tables: seq<Option<CareerTable>>): seq<CareerTable> {
    if |tables| == 0 then []
    else
      var n := |tables| - 1;
      Collected(tables[..n]) + (if tables[n].Some? then [tables[n].value] else [])
  }

  /** The names of the candidates whose table is None, in processing order. */
  function FailedNames(cands: seq<Candidate>, tables: seq<Option<CareerTable>>): seq<string>
    requires |cands| == |tables|
  {
    if |cands| == 0 then []
    else
      var n := |cands| - 1;
      FailedNames(cands[..n], tables[..n]) + (if tables[n].None? then [cands[n].player] else [])
  }

  /** The rows of `pd.concat` over the collected tables. */
  function AllRows(ts: seq<CareerTable>): seq<CareerRow> {
    if |ts| == 0 then [] else AllRows(ts[..|ts| - 1]) + ts[|ts| - 1].rows
  }

  /** get_nba_year_by_year_stats' loop: `tables[i]` is what get_player_career_stats gave
      for candidate i. The combined rows are None when no table was collected. */
  method CollectCareers(cands: seq<Candidate>, tables: seq<Option<CareerTable>>)
    returns (combined: Option<seq<CareerRow>>, failed: seq<string>)
    requires |cands| == |tables|
    ensures failed == FailedNames(cands, tables)
    ensures combined == if |Collected(tables)| == 0 then None else Some(AllRows(Collected(tables)))
  {
    var all: seq<CareerTable> := [];
    failed := [];
    var i := 0;
    while i < |cands|
      invariant 0 <= i <= |cands|
      invariant all == Collected(tables[..i])
      invariant failed == FailedNames(cands[..i], tables[..i])
    {
      assert tables[..i + 1][..i] == tables[..i] && cands[..i + 1][..i] == cands[..i];
      if tables[i].Some? {
        all := all + [tables[i].value];
      } else {
        failed := failed + [cands[i].player];
      }
      i := i + 1;
    }
    assert tables[..i] == tables && cands[..i] == cands;
    if |all| > 0 {
      combined := Some(AllRows(all));
    } else {
      combined := None;
    }
  }

  /** Every candidate is either collected or listed as failed, never both. */
  lemma {:induction false} EachCandidateAccounted(cands: seq<Candidate>, tables: seq<Option<CareerTable>>)
    requires |cands| == |tables|
    ensures |Collected(tables)| + |FailedNames(cands, tables)| == |cands|
  {
    if |cands| > 0 {
      var n := |cands| - 1;
      EachCandidateAccounted(cands[..n], tables[..n]);
    }
  }

  /** Nothing is combined exactly when every candidate failed. */
  lemma {:induction false} NothingCollectedIffAllFailed(tables: seq<Option<CareerTable>>)
    ensures |Collected(tables)| == 0 <==> forall i :: 0 <= i < |tables| ==> tables[i].None?
  {
    if |tables| > 0 {
      var n := |tables| - 1;
      NothingCollectedIffAllFailed(tables[..n]);
      assert forall i :: 0 <= i < n ==> tables[..n][i] == tables[i];
    }
  }
}
