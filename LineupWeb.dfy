/** lineup_data_for_web_app.py: per-size lineup frames tagged with LINEUP_SIZE, combined,
    and each lineup's "A - B - C" group name split into player1..player5 columns. The
    endpoint's frames (or the exception it raised) are parameters. */
module LineupWeb {
  import opened Wrappers
  import opened Text
  import opened Lists
  import opened Frames

  // ---------------------------------------------------------------------------
  // split_players: re.split(r'\s+-\s+', group_name)

  /** The end of the maximal run of whitespace starting at `i`. */
  function ScanSpaces(s: string, i: nat): (j: nat)
    requires i <= |s|
    decreases |s| - i
    ensures i <= j <= |s|
    ensures forall k :: i <= k < j ==> IsSpace(s[k])
    ensures j < |s| ==> !IsSpace(s[j])
  {
    if i < |s| && IsSpace(s[i]) then ScanSpaces(s, i + 1) else i
  }

  /** A hyphen with whitespace immediately before and after it. */
  predicate SpacedHyphenAt(s: string, j: int) {
    0 < j < |s| - 1 && s[j] == '-' && IsSpace(s[j - 1]) && IsSpace(s[j + 1])
  }

  /** Where a match of `\s+-\s+` that starts at `i` ends. Each `\s+` is greedy and the
      hyphen is not whitespace, so the first run must stop right at the hyphen. */
  function SepEnd(s: string, i: nat): (k: Option<nat>)
    requires i <= |s|
    ensures k.Some? ==> i + 3 <= k.value <= |s| && SpacedHyphenAt(s, ScanSpaces(s, i))
  {
    var j := ScanSpaces(s, i);
    if j == i || j >= |s| || s[j] != '-' then None
    else
      var k := ScanSpaces(s, j + 1);
      if k == j + 1 then None else Some(k)
  }

  /** The leftmost match at or after `from`, as (start, end). */
  function FirstSep(s: string, from: nat): (r: Option<(nat, nat)>)
    requires from <= |s|
    decreases |s| - from
    ensures r.Some? ==> from <= r.value.0 <= |s| && SepEnd(s, r.value.0) == Some(r.value.1)
    ensures r.Some? ==> forall i :: from <= i < r.value.0 ==> SepEnd(s, i).None?
    ensures r.None? ==> forall i :: from <= i <= |s| ==> SepEnd(s, i).None?
  {
    match SepEnd(s, from)
    case Some(k) => Some((from, k))
    case None => if from == |s| then None else FirstSep(s, from + 1)
  }

  /** split_players. */
  function SplitPlayers(s: string): (names: seq<string>)
    decreases |s|
    ensures |names| >= 1
  {
    match FirstSep(s, 0)
    case None => [s]
    case Some((i, k)) => [s[..i]] + SplitPlayers(s[k..])
  }

  /** The name string is cut exactly when it holds a hyphen with whitespace on both sides:
      "Nickeil Alexander-Walker" stays one name. */
  lemma SplitsOnlyAtSpacedHyphen(s: string)
    ensures (forall j :: !SpacedHyphenAt(s, j)) ==> SplitPlayers(s) == [s]
    ensures (exists j :: SpacedHyphenAt(s, j)) ==> |SplitPlayers(s)| >= 2
  {
    if exists j :: SpacedHyphenAt(s, j) {
      var j :| SpacedHyphenAt(s, j);
      assert ScanSpaces(s, j - 1) == j;
      assert SepEnd(s, j - 1).Some?;
    }
  }

  /** A name that survives a join: it neither starts nor ends with whitespace and no
      hyphen in it follows whitespace. */
  predicate CleanName(n: string) {
    |n| > 0 && !IsSpace(n[0]) && !IsSpace(n[|n| - 1])
    && forall j :: 0 < j < |n| ==> !(IsSpace(n[j - 1]) && n[j] == '-')
  }

  lemma {:induction false} FirstSepAt(s: string, from: nat, i: nat)
    requires from <= i <= |s| && SepEnd(s, i).Some?
    requires forall t :: from <= t < i ==> SepEnd(s, t).None?
    ensures FirstSep(s, from) == Some((i, SepEnd(s, i).value))
    decreases i - from
  {
    if from < i {
      FirstSepAt(s, from + 1, i);
    }
  }

  /** In `x + " - " + rest` the first separator is the one right after `x`. */
  lemma SeamIsFirstSep(x: string, rest: string)
    requires CleanName(x) && |rest| > 0 && !IsSpace(rest[0])
    ensures FirstSep(x + " - " + rest, 0) == Some((|x|, |x| + 3))
  {
    var s := x + " - " + rest;
    assert s[|x|] == ' ' && s[|x| + 1] == '-' && s[|x| + 2] == ' ' && s[|x| + 3] == rest[0];
    SepEndAtSeam(s, |x|);
    forall t | 0 <= t < |x|
      ensures SepEnd(s, t).None?
    {
      NoSeparatorInside(x, rest, t);
    }
    FirstSepAt(s, 0, |x|);
  }

  /** A single space, a hyphen and a single space followed by a non-space: the match
      starting at the first space ends right after the second. */
  lemma SepEndAtSeam(s: string, p: nat)
    requires p + 3 < |s| && s[p] == ' ' && s[p + 1] == '-' && s[p + 2] == ' ' && !IsSpace(s[p + 3])
    ensures SepEnd(s, p) == Some(p + 3)
  {
    assert ScanSpaces(s, p + 1) == p + 1;
    assert ScanSpaces(s, p) == p + 1;
    assert ScanSpaces(s, p + 3) == p + 3;
    assert ScanSpaces(s, p + 2) == p + 3;
  }

  /** No match starts inside a clean name: its whitespace run stops before the name ends
      and is not followed by a hyphen. */
  lemma NoSeparatorInside(x: string, rest: string, t: nat)
    requires CleanName(x) && t < |x|
    ensures !SpacedHyphenAt(x + " - " + rest, ScanSpaces(x + " - " + rest, t))
  {
    var s := x + " - " + rest;
    var j := ScanSpaces(s, t);
    assert s[|x| - 1] == x[|x| - 1];
    assert j <= |x| - 1;
    if 0 < j {
      assert s[j] == x[j] && s[j - 1] == x[j - 1];
    }
  }

  lemma {:induction false} JoinStart(xs: seq<string>, sep: string)
    requires |xs| >= 1 && |xs[0]| > 0
    ensures |Join(xs, sep)| > 0 && Join(xs, sep)[0] == xs[0][0]
  {
  }

  /** A clean name is not cut. */
  lemma CleanNameWhole(x: string)
    requires CleanName(x)
    ensures SplitPlayers(x) == [x]
  {
    forall j
      ensures !SpacedHyphenAt(x, j)
    {
    }
    SplitsOnlyAtSpacedHyphen(x);
  }

  /** A clean name followed by " - " is cut off at the seam. */
  lemma SeamSplit(x: string, rest: string)
    requires CleanName(x) && |rest| > 0 && !IsSpace(rest[0])
    ensures SplitPlayers(x + " - " + rest) == [x] + SplitPlayers(rest)
  {
    SeamIsFirstSep(x, rest);
    var s := x + " - " + rest;
    assert s[..|x|] == x;
    assert s[|x| + 3..] == rest;
  }

  /** Splitting names joined with " - " gives them back. */
  lemma {:induction false} SplitJoinPlayers(names: seq<string>)
    requires |names| >= 1 && forall i :: 0 <= i < |names| ==> CleanName(names[i])
    ensures SplitPlayers(Join(names, " - ")) == names
  {
    if |names| == 1 {
      CleanNameWhole(names[0]);
    } else {
      var rest := Join(names[1..], " - ");
      JoinStart(names[1..], " - ");
      SeamSplit(names[0], rest);
      SplitJoinPlayers(names[1..]);
      assert names == [names[0]] + names[1..];
    }
  }

  /** Every place where `\s+-\s+` matches, it matches exactly " - ". */
  predicate SeparatorsPlain(s: string) {
    forall i :: 0 <= i <= |s| && SepEnd(s, i).Some? ==> SepEnd(s, i) == Some(i + 3) && s[i..i + 3] == " - "
  }

  /** The whitespace run found in a suffix is the one found at the same place in the text. */
  lemma {:induction false} ScanSpacesSuffix(s: string, k: nat, j: nat)
    requires k + j <= |s|
    ensures ScanSpaces(s[k..], j) == ScanSpaces(s, k + j) - k
    decreases |s| - k - j
  {
    if j < |s[k..]| && IsSpace(s[k..][j]) {
      ScanSpacesSuffix(s, k, j + 1);
    }
  }

  /** A match in a suffix is the match at the same place in the text. */
  lemma SepEndSuffix(s: string, k: nat, j: nat)
    requires k + j <= |s|
    ensures SepEnd(s, k + j).None? ==> SepEnd(s[k..], j).None?
    ensures SepEnd(s, k + j).Some? ==> SepEnd(s[k..], j) == Some(SepEnd(s, k + j).value - k)
  {
    ScanSpacesSuffix(s, k, j);
    var h := ScanSpaces(s, k + j);
    if h < |s| {
      ScanSpacesSuffix(s, k, h - k + 1);
    }
  }

  lemma SeparatorsPlainSuffix(s: string, k: nat)
    requires SeparatorsPlain(s) && k <= |s|
    ensures SeparatorsPlain(s[k..])
  {
    var t := s[k..];
    forall j | 0 <= j <= |t| && SepEnd(t, j).Some?
      ensures SepEnd(t, j) == Some(j + 3) && t[j..j + 3] == " - "
    {
      SepEndSuffix(s, k, j);
      assert t[j..j + 3] == s[k + j..k + j + 3];
    }
  }

  lemma PlainAt(s: string, i: nat)
    requires SeparatorsPlain(s) && i <= |s| && SepEnd(s, i).Some?
    ensures SepEnd(s, i) == Some(i + 3) && s[i..i + 3] == " - "
  {
  }

  /** A first separator that is a plain " - " cuts the text into the first name and the rest. */
  lemma SplitStep(s: string, i: nat)
    requires FirstSep(s, 0) == Some((i, i + 3))
    ensures SplitPlayers(s) == [s[..i]] + SplitPlayers(s[i + 3..])
  {
  }

  lemma JoinCons(a: string, rest: seq<string>, sep: string)
    requires |rest| >= 1
    ensures Join([a] + rest, sep) == a + sep + Join(rest, sep)
  {
    assert ([a] + rest)[1..] == rest;
  }

  /** Splitting a stored group name and joining the pieces with " - " gives it back,
      whenever every separator in it is a plain " - " ("A - " splits into "A" and ""). */
  lemma {:induction false} JoinSplitPlayers(s: string)
    requires SeparatorsPlain(s)
    ensures Join(SplitPlayers(s), " - ") == s
    decreases |s|
  {
    if FirstSep(s, 0).Some? {
      var i := FirstSep(s, 0).value.0;
      PlainAt(s, i);
      SplitStep(s, i);
      var t := s[i + 3..];
      assert s == s[..i] + " - " + t by {
        assert s == s[..i] + s[i..i + 3] + t;
      }
      SeparatorsPlainSuffix(s, i + 3);
      JoinSplitPlayers(t);
      JoinCons(s[..i], SplitPlayers(t), " - ");
    }
  }

  // ---------------------------------------------------------------------------
  // player1..player5

  /** `players[i] if len(players) > i else None`. */
  function PlayerSlot(players: seq<string>, i: nat): Cell {
    if |players| > i then TextCell(players[i]) else Blank
  }

  /** The five slot values of one lineup. */
  function Slots(players: seq<string>): (cells: seq<Cell>)
    ensures |cells| == 5
  {
    seq(5, i requires 0 <= i < 5 => PlayerSlot(players, i))
  }

  /** The names held by a list of cells, in order. */
  function Names(cells: seq<Cell>): seq<string> {
    if |cells| == 0 then []
    else (if cells[0].TextCell? then [cells[0].t] else []) + Names(cells[1..])
  }

  function Min(a: nat, b: nat): nat {
    if a < b then a else b
  }

  /** The slots hold the first five names in order, then blanks: names past the fifth
      are dropped and none is invented. */
  lemma SlotsHoldFirstFive(players: seq<string>)
    ensures Names(Slots(players)) == players[..Min(|players|, 5)]
    ensures forall i :: 0 <= i < 5 ==> (Slots(players)[i] == Blank <==> i >= |players|)
  {
    var cells := Slots(players);
    NamesFrom(players, cells, 0);
    assert cells[0..] == cells;
  }

  lemma {:induction false} NamesFrom(players: seq<string>, cells: seq<Cell>, i: nat)
    requires cells == Slots(players) && i <= 5
    ensures Names(cells[i..]) == if i < |players| then players[i..Min(|players|, 5)] else []
    decreases 5 - i
  {
    if i < 5 {
      NamesFrom(players, cells, i + 1);
      assert cells[i..][1..] == cells[i + 1..];
      if i + 1 < |players| && i + 1 < 5 {
        assert players[i..Min(|players|, 5)] == [players[i]] + players[i + 1..Min(|players|, 5)];
      }
    }
  }

  /** A lineup name built from at most five clean names fills the slots with exactly them. */
  lemma LineupColumns(names: seq<string>)
    requires 1 <= |names| <= 5 && forall i :: 0 <= i < |names| ==> CleanName(names[i])
    ensures Names(Slots(SplitPlayers(Join(names, " - ")))) == names
  {
    var ps := SplitPlayers(Join(names, " - "));
    SplitJoinPlayers(names);
    assert ps == names;
    SlotsHoldFirstFive(names);
    assert names[..|names|] == names;
  }

  // ---------------------------------------------------------------------------
  // The combined frame

  const PlayerColumns: seq<string> := ["player1", "player2", "player3", "player4", "player5"]

  lemma PlayerColumnsDistinct()
    ensures Distinct(PlayerColumns)
  {
    assert PlayerColumns[1..] == ["player2", "player3", "player4", "player5"];
  }

  /** The i-th player column over all rows of a frame whose group_name cells are text. */
  function SlotColumn(f: Frame, i: nat): (cells: seq<Cell>)
    requires i < 5 && GroupNamesAreText(f)
    ensures |cells| == |f.rows|
  {
    seq(|f.rows|, r requires 0 <= r < |f.rows| =>
      PlayerSlot(SplitPlayers(Get(f.columns, f.rows[r], "group_name").t), i))
  }

  predicate GroupNamesAreText(f: Frame) {
    forall r :: 0 <= r < |f.rows| ==> Get(f.columns, f.rows[r], "group_name").TextCell?
  }

  /** The uppercase GROUP_NAME column is renamed only when no group_name exists. */
  function NormalizeGroupName(f: Frame): (g: Frame)
    requires WellFormed(f)
    ensures WellFormed(g) && |g.rows| == |f.rows|
    ensures "group_name" in f.columns ==> g == f
    ensures "group_name" in g.columns <==> "group_name" in f.columns || "GROUP_NAME" in f.columns
  {
    if "group_name" !in f.columns && "GROUP_NAME" in f.columns then RenameColumn(f, "GROUP_NAME", "group_name") else f
  }

  /** main's post-processing of the combined frame: player1..player5 from the split group
      name; a frame without group_name is left as is; a group_name cell that is not text
      makes re.split raise TypeError. */
  function AddPlayerColumns(f: Frame): (r: Result<Frame>)
    requires WellFormed(f)
    ensures r.Err? ==> r.error == TypeError
    ensures r.Err? <==> "group_name" in NormalizeGroupName(f).columns && !GroupNamesAreText(NormalizeGroupName(f))
    ensures r.Ok? ==> |r.value.rows| == |f.rows|
    ensures "group_name" !in NormalizeGroupName(f).columns ==> r == Ok(f)
    ensures r.Ok? && "group_name" in NormalizeGroupName(f).columns ==>
      var g := NormalizeGroupName(f);
      GroupNamesAreText(g) &&
      forall k, i :: 0 <= k < |f.rows| && 0 <= i < 5 ==>
        Get(r.value.columns, r.value.rows[k], PlayerColumns[i]) == Slots(SplitPlayers(GroupText(g, k)))[i]
  {
    var g := NormalizeGroupName(f);
    if "group_name" !in g.columns then Ok(g)
    else if !GroupNamesAreText(g) then Err(TypeError)
    else
      PlayerColumnsDistinct();
      var out := SetColumns(g, PlayerColumns, SlotColumns(g));
      assert forall k :: 0 <= k < |f.rows| ==> forall i :: 0 <= i < 5 ==>
        Get(out.columns, out.rows[k], PlayerColumns[i]) == Slots(SplitPlayers(GroupText(g, k)))[i] by {
        forall k | 0 <= k < |f.rows|
          ensures forall i :: 0 <= i < 5 ==>
            Get(out.columns, out.rows[k], PlayerColumns[i]) == Slots(SplitPlayers(GroupText(g, k)))[i]
        {
          SlotsOfRow(g, k, "group_name");
        }
      }
      Ok(out)
  }

  /** After splitting, each row's player columns are the slots of its own group name,
      and every other column of the row is untouched. */
  lemma PlayerColumnsOfRow(f: Frame, r: nat, c: string)
    requires WellFormed(f) && AddPlayerColumns(f).Ok?
    requires "group_name" in NormalizeGroupName(f).columns && r < |f.rows|
    ensures var g := NormalizeGroupName(f);
      var out := AddPlayerColumns(f).value;
      GroupNamesAreText(g)
      && (forall i :: 0 <= i < 5 ==>
        Get(out.columns, out.rows[r], PlayerColumns[i]) == Slots(SplitPlayers(GroupText(g, r)))[i])
      && (c !in PlayerColumns ==> Get(out.columns, out.rows[r], c) == Get(g.columns, g.rows[r], c))
  {
    var g := NormalizeGroupName(f);
    SlotsOfRow(g, r, c);
  }

  function GroupText(g: Frame, r: nat): string
    requires GroupNamesAreText(g) && r < |g.rows|
  {
    Get(g.columns, g.rows[r], "group_name").t
  }

  lemma SlotsOfRow(g: Frame, r: nat, c: string)
    requires WellFormed(g) && GroupNamesAreText(g) && r < |g.rows|
    ensures Distinct(PlayerColumns)
    ensures var out := SetColumns(g, PlayerColumns, SlotColumns(g));
      (forall i :: 0 <= i < 5 ==>
        Get(out.columns, out.rows[r], PlayerColumns[i]) == Slots(SplitPlayers(GroupText(g, r)))[i])
      && (c !in PlayerColumns ==> Get(out.columns, out.rows[r], c) == Get(g.columns, g.rows[r], c))
  {
    PlayerColumnsDistinct();
    SlotsOfRowUnder(g, PlayerColumns, r, c);
  }

  /** `SlotsOfRow` for any five distinct column names. */
  lemma SlotsOfRowUnder(g: Frame, names: seq<string>, r: nat, c: string)
    requires WellFormed(g) && GroupNamesAreText(g) && r < |g.rows| && Distinct(names) && |names| == 5
    ensures var out := SetColumns(g, names, SlotColumns(g));
      (forall i :: 0 <= i < 5 ==>
        Get(out.columns, out.rows[r], names[i]) == Slots(SplitPlayers(GroupText(g, r)))[i])
      && (c !in names ==> Get(out.columns, out.rows[r], c) == Get(g.columns, g.rows[r], c))
  {
    var cols := SlotColumns(g);
    var out := SetColumns(g, names, cols);
    forall i | 0 <= i < 5
      ensures Get(out.columns, out.rows[r], names[i]) == Slots(SplitPlayers(GroupText(g, r)))[i]
    {
      assert Get(out.columns, out.rows[r], names[i]) == cols[i][r];
      SlotCell(g, i, r);
    }
  }

  lemma SlotCell(g: Frame, i: nat, r: nat)
    requires GroupNamesAreText(g) && i < 5 && r < |g.rows|
    ensures SlotColumns(g)[i][r] == Slots(SplitPlayers(GroupText(g, r)))[i]
  {
  }

  function SlotColumns(g: Frame): (cols: seq<seq<Cell>>)
    requires GroupNamesAreText(g)
    ensures |cols| == 5 && forall i :: 0 <= i < 5 ==> |cols[i]| == |g.rows|
  {
    seq(5, i requires 0 <= i < 5 => SlotColumn(g, i))
  }

  // ---------------------------------------------------------------------------
  // Fetching and combining

  /** `df['LINEUP_SIZE'] = lineup_size`. */
  function Tag(size: int, f: Frame): (g: Frame)
    requires WellFormed(f)
    ensures WellFormed(g) && |g.rows| == |f.rows|
    ensures forall r :: r in g.rows ==> Get(g.columns, r, "LINEUP_SIZE") == IntCell(size)
  {
    var g := SetColumn(f, "LINEUP_SIZE", seq(|f.rows|, i => IntCell(size)));
    assert forall r :: r in g.rows ==> exists i :: 0 <= i < |g.rows| && g.rows[i] == r;
    g
  }

  /** The non-empty frames, tagged, in order. */
  function Tagged(size: int, frames: seq<Frame>): (ts: seq<Frame>)
    requires forall f :: f in frames ==> WellFormed(f)
    ensures forall g, r :: g in ts && r in g.rows ==> Get(g.columns, r, "LINEUP_SIZE") == IntCell(size)
    ensures |ts| == 0 <==> forall f :: f in frames ==> IsEmpty(f)
  {
    if |frames| == 0 then []
    else
      var f := frames[|frames| - 1];
      assert forall g :: g in frames <==> g in frames[..|frames| - 1] || g == f;
      Tagged(size, frames[..|frames| - 1]) + (if IsEmpty(f) then [] else [Tag(size, f)])
  }

  /** What fetch_lineup_data_paginated returns for the per-team frames. */
  function Collected(size: int, frames: seq<Frame>): Option<Frame>
    requires forall f :: f in frames ==> WellFormed(f)
  {
    var ts := Tagged(size, frames);
    if |ts| > 0 then Some(Concat(ts)) else None
  }

  /** The team loop of fetch_lineup_data_paginated. */
  method FetchLineups(size: int, frames: seq<Frame>) returns (r: Option<Frame>)
    requires forall f :: f in frames ==> WellFormed(f)
    ensures r == Collected(size, frames)
  {
    var all: seq<Frame> := [];
    for i := 0 to |frames|
      invariant all == Tagged(size, frames[..i])
    {
      assert frames[..i + 1][..i] == frames[..i];
      var df := frames[i];
      if !IsEmpty(df) {
        all := all + [Tag(size, df)];
      }
    }
    assert frames[..|frames|] == frames;
    r := if |all| > 0 then Some(Concat(all)) else None;
  }

  /** Nothing is returned exactly when every team frame was empty, and every row returned
      carries the requested lineup size. */
  lemma CollectedRows(size: int, frames: seq<Frame>)
    requires forall f :: f in frames ==> WellFormed(f)
    ensures Collected(size, frames).None? <==> forall f :: f in frames ==> IsEmpty(f)
    ensures Collected(size, frames).Some? ==>
      var g := Collected(size, frames).value;
      forall r :: r in g.rows ==> Get(g.columns, r, "LINEUP_SIZE") == IntCell(size)
  {
    var ts := Tagged(size, frames);
    if |ts| > 0 {
      ConcatRows(ts, "LINEUP_SIZE", {IntCell(size)});
    }
  }

  const LineupSizes: seq<int> := [2, 3, 5]

  const SizeCells: set<Cell> := {IntCell(2), IntCell(3), IntCell(5)}

  /** What the endpoint gave for one lineup size: the per-team frames, or an exception. */
  type Fetched = Result<seq<Frame>>

  predicate FetchedWellFormed(fetched: seq<Fetched>) {
    forall k :: 0 <= k < |fetched| && fetched[k].Ok? ==> forall f :: f in fetched[k].value ==> WellFormed(f)
  }

  /** The frame main keeps for one size: none when the fetch raised or came back empty. */
  function KeptOne(size: int, fetched: Fetched): (ks: seq<Frame>)
    requires fetched.Ok? ==> forall f :: f in fetched.value ==> WellFormed(f)
    ensures |ks| <= 1
    ensures forall g, r :: g in ks && r in g.rows ==> Get(g.columns, r, "LINEUP_SIZE") == IntCell(size)
  {
    match fetched
    case Err(_) => []
    case Ok(frames) =>
      CollectedRows(size, frames);
      match Collected(size, frames)
      case None => []
      case Some(g) => [g]
  }

  /** The frames main keeps, in size order. */
  function Kept(fetched: seq<Fetched>): (ks: seq<Frame>)
    requires |fetched| <= |LineupSizes| && FetchedWellFormed(fetched)
    ensures forall g, r :: g in ks && r in g.rows ==>
      Get(g.columns, r, "LINEUP_SIZE") in SizeCells
  {
    if |fetched| == 0 then []
    else
      var k := |fetched| - 1;
      Kept(fetched[..k]) + KeptOne(LineupSizes[k], fetched[k])
  }

  /** main's size loop: a size whose fetch raised is reported and skipped. */
  method CombineSizes(fetched: seq<Fetched>) returns (combined: Option<Frame>)
    requires |fetched| == |LineupSizes| && FetchedWellFormed(fetched)
    ensures combined == (if |Kept(fetched)| > 0 then Some(Concat(Kept(fetched))) else None)
  {
    var all: seq<Frame> := [];
    KeptPrefix(fetched, 0);
    for k := 0 to |LineupSizes|
      invariant FetchedWellFormed(fetched[..k]) && all == Kept(fetched[..k])
    {
      KeptPrefix(fetched, k + 1);
      var one: seq<Frame> := [];
      if fetched[k].Ok? {
        var df := FetchLineups(LineupSizes[k], fetched[k].value);
        if df.Some? {
          one := [df.value];
        }
      }
      assert one == KeptOne(LineupSizes[k], fetched[k]);
      all := all + one;
    }
    assert fetched[..|LineupSizes|] == fetched;
    combined := if |all| > 0 then Some(Concat(all)) else None;
  }

  /** A prefix of the fetched results is well formed, and keeping it one more size
      appends that size's frame. */
  lemma KeptPrefix(fetched: seq<Fetched>, k: nat)
    requires k <= |fetched| <= |LineupSizes| && FetchedWellFormed(fetched)
    ensures FetchedWellFormed(fetched[..k])
    ensures k > 0 ==> (fetched[..k][..k - 1] == fetched[..k - 1] &&
      Kept(fetched[..k]) == Kept(fetched[..k - 1]) + KeptOne(LineupSizes[k - 1], fetched[k - 1]))
  {
    assert forall j :: 0 <= j < k ==> fetched[..k][j] == fetched[j];
    if k > 0 {
      assert fetched[..k][..k - 1] == fetched[..k - 1];
    }
  }

  /** Every combined row is tagged with one of the three lineup sizes. */
  lemma CombinedSizes(fetched: seq<Fetched>)
    requires |fetched| == |LineupSizes| && FetchedWellFormed(fetched)
    ensures var g := Concat(Kept(fetched));
      forall r :: r in g.rows ==> Get(g.columns, r, "LINEUP_SIZE") in SizeCells
  {
    var ks := Kept(fetched);
    ConcatRows(ks, "LINEUP_SIZE", SizeCells);
  }
}
