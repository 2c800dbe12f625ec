/** timberwolves_players_on_league_leaderboard.py: the stat name of a leaderboard caption,
    the value and league ranking read from a player cell, and the rows kept from the
    commented-out leaderboard section. The HTML is abstracted as the texts the code reads. */
module Leaderboard {
  import opened Wrappers
  import opened Text

  // ---------------------------------------------------------------------------
  // clean_stat_name

  /** A table caption: its data-tip attribute, the text of its first <b> child, and its text. */
  datatype Caption = Caption(dataTip: Option<string>, firstBold: Option<string>, text: string)

  predicate NoNewline(s: string) {
    forall i :: 0 <= i < |s| ==> s[i] != '\n'
  }

  /** `<b>(.*?)</b>` matches at `k` with group `g`: "<b>" at k, the shortest stretch without a
      newline, then "</b>". */
  predicate BoldAt(tip: string, k: nat, g: string) {
    OccursAt(tip, "<b>", k) && k + 3 + |g| <= |tip| && tip[k + 3..k + 3 + |g|] == g
    && OccursAt(tip, "</b>", k + 3 + |g|) && NoNewline(g)
    && forall e :: k + 3 <= e < k + 3 + |g| ==> !OccursAt(tip, "</b>", e)
  }

  /** `re.search(r'<b>(.*?)</b>', tip)` from position `i`: the group of the leftmost match. */
  function BoldFrom(tip: string, i: nat): (r: Option<string>)
    decreases |tip| - i
    ensures r.Some? ==> exists k :: i <= k && BoldAt(tip, k, r.value)
  {
    match FindFrom(tip, "<b>", i)
    case None => None
    case Some(k) =>
      match FindFrom(tip, "</b>", k + 3)
      case None => None
      case Some(e) =>
        var g := tip[k + 3..e];
        if NoNewline(g) then
          assert BoldAt(tip, k, g);
          Some(g)
        else BoldFrom(tip, k + 1)
  }

  /** No match of `<b>(.*?)</b>` starts in [i, j). */
  ghost predicate NoBoldIn(tip: string, i: nat, j: nat) {
    forall k: nat, g: string :: i <= k < j ==> !BoldAt(tip, k, g)
  }

  lemma NoOpenNoBold(tip: string, i: nat, j: nat)
    requires forall k :: i <= k < j ==> !OccursAt(tip, "<b>", k)
    ensures NoBoldIn(tip, i, j)
  {
    forall k: nat, g: string | i <= k < j ensures !BoldAt(tip, k, g) {
      assert !OccursAt(tip, "<b>", k);
    }
  }

  lemma NoCloseNoBold(tip: string, k: nat, j: nat)
    requires forall e :: k + 3 <= e ==> !OccursAt(tip, "</b>", e)
    ensures NoBoldIn(tip, k, j)
  {
    forall k2: nat, g: string | k <= k2 < j ensures !BoldAt(tip, k2, g) {
      assert !OccursAt(tip, "</b>", k2 + 3 + |g|);
    }
  }

  /** When the first "</b>" after "<b>" at `k` follows a newline, no match starts at `k`. */
  lemma NewlineNoBold(tip: string, k: nat, e: nat)
    requires k + 3 <= e && OccursAt(tip, "</b>", e)
    requires forall e2 :: k + 3 <= e2 < e ==> !OccursAt(tip, "</b>", e2)
    requires !NoNewline(tip[k + 3..e])
    ensures NoBoldIn(tip, k, k + 1)
  {
    forall k2: nat, g: string | k <= k2 < k + 1 ensures !BoldAt(tip, k2, g) {
      BoldEnd(tip, k, g, e);
    }
  }

  /** A match at `k` ends at the first "</b>" after the "<b>". */
  lemma BoldEnd(tip: string, k: nat, g: string, e: nat)
    requires k + 3 <= e && OccursAt(tip, "</b>", e)
    requires forall e2 :: k + 3 <= e2 < e ==> !OccursAt(tip, "</b>", e2)
    ensures BoldAt(tip, k, g) ==> g == tip[k + 3..e]
  {
    if BoldAt(tip, k, g) {
      var e2 := k + 3 + |g|;
      assert OccursAt(tip, "</b>", e2);
      assert e <= e2;
    }
  }

  lemma NoBoldJoin(tip: string, i: nat, j: nat, l: nat)
    requires i <= j && NoBoldIn(tip, i, j) && NoBoldIn(tip, j, l)
    ensures NoBoldIn(tip, i, l)
  {
  }

  /** `g` is the group of the leftmost match starting at or after `i`. */
  ghost predicate LeftmostBold(tip: string, i: nat, g: string) {
    exists k :: i <= k && BoldAt(tip, k, g) && NoBoldIn(tip, i, k)
  }

  lemma BoldFromNoOpen(tip: string, i: nat)
    requires FindFrom(tip, "<b>", i).None?
    ensures BoldFrom(tip, i).None? && NoBoldIn(tip, i, |tip|)
  {
    NoOpenNoBold(tip, i, |tip|);
  }

  lemma BoldFromNoClose(tip: string, i: nat, k: nat)
    requires FindFrom(tip, "<b>", i) == Some(k) && FindFrom(tip, "</b>", k + 3).None?
    ensures BoldFrom(tip, i).None? && NoBoldIn(tip, i, |tip|)
  {
    NoOpenNoBold(tip, i, k);
    NoCloseNoBold(tip, k, |tip|);
    NoBoldJoin(tip, i, k, |tip|);
  }

  lemma BoldFromSkip(tip: string, i: nat, k: nat, e: nat)
    requires FindFrom(tip, "<b>", i) == Some(k) && FindFrom(tip, "</b>", k + 3) == Some(e)
    requires !NoNewline(tip[k + 3..e])
    ensures BoldFrom(tip, i) == BoldFrom(tip, k + 1) && NoBoldIn(tip, i, k + 1)
  {
    NoOpenNoBold(tip, i, k);
    NewlineNoBold(tip, k, e);
    NoBoldJoin(tip, i, k, k + 1);
  }

  lemma BoldFromHit(tip: string, i: nat, k: nat, e: nat)
    requires FindFrom(tip, "<b>", i) == Some(k) && FindFrom(tip, "</b>", k + 3) == Some(e)
    requires NoNewline(tip[k + 3..e])
    ensures BoldFrom(tip, i) == Some(tip[k + 3..e]) && LeftmostBold(tip, i, tip[k + 3..e])
  {
    NoOpenNoBold(tip, i, k);
    assert BoldAt(tip, k, tip[k + 3..e]);
  }

  lemma LeftmostBoldJoin(tip: string, i: nat, j: nat, g: string)
    requires i <= j && NoBoldIn(tip, i, j) && LeftmostBold(tip, j, g)
    ensures LeftmostBold(tip, i, g)
  {
    var k :| j <= k && BoldAt(tip, k, g) && NoBoldIn(tip, j, k);
    NoBoldJoin(tip, i, j, k);
  }

  /** BoldFrom finds the leftmost match, and finds one whenever there is one. */
  lemma {:induction false} BoldFromLeftmost(tip: string, i: nat)
    decreases |tip| - i
    ensures BoldFrom(tip, i).None? ==> NoBoldIn(tip, i, |tip|)
    ensures BoldFrom(tip, i).Some? ==> LeftmostBold(tip, i, BoldFrom(tip, i).value)
  {
    var open := FindFrom(tip, "<b>", i);
    if open.None? {
      BoldFromNoOpen(tip, i);
    } else {
      var k := open.value;
      var close := FindFrom(tip, "</b>", k + 3);
      if close.None? {
        BoldFromNoClose(tip, i, k);
      } else if NoNewline(tip[k + 3..close.value]) {
        BoldFromHit(tip, i, k, close.value);
      } else {
        BoldFromSkip(tip, i, k, close.value);
        BoldFromLeftmost(tip, k + 1);
        if BoldFrom(tip, k + 1).Some? {
          LeftmostBoldJoin(tip, i, k + 1, BoldFrom(tip, k + 1).value);
        } else {
          NoBoldJoin(tip, i, k + 1, |tip|);
        }
      }
    }
  }

  /** clean_stat_name: the bold text inside the data-tip when the pattern matches there,
      else the stripped text of the first <b> child, else the stripped caption text. */
  function StatName(c: Caption): (r: string)
    ensures c.dataTip.Some? && !NoBoldIn(c.dataTip.value, 0, |c.dataTip.value|) ==> LeftmostBold(c.dataTip.value, 0, r)
    ensures (c.dataTip.None? || NoBoldIn(c.dataTip.value, 0, |c.dataTip.value|)) && c.firstBold.Some? ==> r == Strip(c.firstBold.value)
    ensures (c.dataTip.None? || NoBoldIn(c.dataTip.value, 0, |c.dataTip.value|)) && c.firstBold.None? ==> r == Strip(c.text)
  {
    BoldFromLeftmost(if c.dataTip.Some? then c.dataTip.value else "", 0);
    var tip := if c.dataTip.Some? then BoldFrom(c.dataTip.value, 0) else None;
    if tip.Some? then tip.value
    else if c.firstBold.Some? then Strip(c.firstBold.value)
    else Strip(c.text)
  }

  // ---------------------------------------------------------------------------
  // extract_value_and_ranking

  /** The regex class `[\d.]`. */
  predicate IsRunChar(c: char) {
    IsDigit(c) || c == '.'
  }

  /** The first position at or after `i` holding a digit or a dot. */
  function RunStart(s: string, i: nat): (r: Option<nat>)
    requires i <= |s|
    decreases |s| - i
    ensures r.Some? ==> i <= r.value < |s| && IsRunChar(s[r.value])
    ensures r.Some? ==> forall k :: i <= k < r.value ==> !IsRunChar(s[k])
    ensures r.None? ==> forall k :: i <= k < |s| ==> !IsRunChar(s[k])
  {
    if i == |s| then None else if IsRunChar(s[i]) then Some(i) else RunStart(s, i + 1)
  }

  /** The end of the maximal run of digits and dots from `i`. */
  function RunEnd(s: string, i: nat): (j: nat)
    requires i <= |s|
    decreases |s| - i
    ensures i <= j <= |s|
    ensures forall k :: i <= k < j ==> IsRunChar(s[k])
    ensures j < |s| ==> !IsRunChar(s[j])
  {
    if i < |s| && IsRunChar(s[i]) then RunEnd(s, i + 1) else i
  }

  /** The end of a run of whitespace from `i` (`\s*`). */
  function SpaceEnd(s: string, i: nat): (j: nat)
    requires i <= |s|
    decreases |s| - i
    ensures i <= j <= |s|
    ensures j < |s| ==> !IsSpace(s[j])
  {
    if i < |s| && IsSpace(s[i]) then SpaceEnd(s, i + 1) else i
  }

  const Suffixes: set<string> := {"st", "nd", "rd", "th"}

  /** `\(([\d]+(?:st|nd|rd|th))\)` at `k`: the end of the match, just past ')'. */
  function ParenOrdinal(s: string, k: nat): (r: Option<nat>)
    requires k <= |s|
    ensures r.Some? ==> k + 5 <= r.value <= |s|
  {
    if k < |s| && s[k] == '(' then
      var j := ScanDigits(s, k + 1);
      if j > k + 1 && j + 3 <= |s| && s[j..j + 2] in Suffixes && s[j + 2] == ')' then Some(j + 3) else None
    else None
  }

  /** The text matches `\(\d+(?:st|nd|rd|th)\)` somewhere (the link test of `find`). */
  predicate HasParenOrdinal(s: string) {
    exists k :: 0 <= k <= |s| && ParenOrdinal(s, k).Some?
  }

  /** Search for the link test from position `i`. */
  function FindParenOrdinal(s: string, i: nat): (r: bool)
    requires i <= |s|
    decreases |s| - i
    ensures r <==> exists k :: i <= k <= |s| && ParenOrdinal(s, k).Some?
  {
    if ParenOrdinal(s, i).Some? then true
    else if i == |s| then false
    else
      var r := FindParenOrdinal(s, i + 1);
      assert r ==> exists k :: i <= k <= |s| && ParenOrdinal(s, k).Some?;
      r
  }

  /** `str.strip('()')`. */
  function StripParens(s: string): (r: string)
    decreases |s|
    ensures |r| <= |s|
    ensures |r| > 0 ==> r[0] != '(' && r[0] != ')' && r[|r| - 1] != '(' && r[|r| - 1] != ')'
  {
    if |s| > 0 && (s[0] == '(' || s[0] == ')') then StripParens(s[1..])
    else if |s| > 0 && (s[|s| - 1] == '(' || s[|s| - 1] == ')') then StripParens(s[..|s| - 1])
    else s
  }

  /** The regex's optional group right after the run and its spaces: the "Nth" inside
      "(Nth)" at `c`, or "" when there is none there. */
  function OrdinalGroup(t: string, c: nat): (g: string)
    requires c <= |t|
    ensures g == "" || (|g| >= 3 && IsDigit(g[0]) && g[|g| - 2..] in Suffixes)
  {
    match ParenOrdinal(t, c)
    case None => ""
    case Some(e) =>
      var j := ScanDigits(t, c + 1);
      var g := t[c + 1..e - 1];
      assert g[0] == t[c + 1];
      assert g[|g| - 2..] == t[j..j + 2];
      g
  }

  /** `float()` on a run of digits and dots succeeds exactly when it has a digit and at most
      one dot. */
  predicate FloatRun(run: string) {
    (exists i :: 0 <= i < |run| && IsDigit(run[i]))
    && forall i, j :: 0 <= i < j < |run| && run[i] == '.' ==> run[j] != '.'
  }

  /** A player cell: its text (`get_text(strip=True)`) and the texts of its links, in order. */
  datatype Cell = Cell(text: string, links: seq<string>)

  /** The value (as its digits-and-dots text) and the ranking. */
  datatype Reading = Reading(value: string, ranking: string)

  /** The first link whose text passes the link test. */
  function RankingLink(links: seq<string>): (r: Option<string>)
    ensures r.None? <==> forall l :: l in links ==> !HasParenOrdinal(l)
    ensures r.Some? ==>
      exists i :: 0 <= i < |links| && links[i] == r.value && HasParenOrdinal(r.value)
        && forall j :: 0 <= j < i ==> !HasParenOrdinal(links[j])
  {
    if |links| == 0 then None
    else if FindParenOrdinal(links[0], 0) then
      assert HasParenOrdinal(links[0]);
      Some(links[0])
    else
      var r := RankingLink(links[1..]);
      assert forall l :: l in links <==> l == links[0] || l in links[1..];
      if r.Some? then
        var i :| 0 <= i < |links[1..]| && links[1..][i] == r.value && HasParenOrdinal(r.value)
          && forall j :: 0 <= j < i ==> !HasParenOrdinal(links[1..][j]);
        assert links[i + 1] == r.value;
        assert forall j :: 1 <= j < i + 1 ==> links[j] == links[1..][j - 1];
        r
      else r
  }

  /** extract_value_and_ranking: Ok(None) when the text has no digit or dot, Err(ValueError)
      when the first run is not a number, otherwise the run (the first maximal run of
      digits and dots) and the ranking. */
  function ReadCell(cell: Cell): (r: Result<Option<Reading>>)
    ensures r.Ok? && r.value.None? <==> forall k :: 0 <= k < |cell.text| ==> !IsRunChar(cell.text[k])
    ensures r.Err? ==> r.error == ValueError
    ensures r.Ok? && r.value.Some? ==> FloatRun(r.value.value.value)
    ensures RunStart(cell.text, 0).Some? ==>
      var a := RunStart(cell.text, 0).value;
      (r.Ok? <==> FloatRun(cell.text[a..RunEnd(cell.text, a)]))
  {
    var t := cell.text;
    match RunStart(t, 0)
    case None => Ok(None)
    case Some(a) =>
      var run := t[a..RunEnd(t, a)];
      if !FloatRun(run) then Err(ValueError)
      else Ok(Some(Reading(run, Ranking(cell.links, OrdinalGroup(t, SpaceEnd(t, RunEnd(t, a)))))))
  }

  /** The value read is the first maximal run of digits and dots in the text. */
  lemma ReadCellRun(cell: Cell)
    requires ReadCell(cell).Ok? && ReadCell(cell).value.Some?
    ensures var t, a, v := cell.text, RunStart(cell.text, 0).value, ReadCell(cell).value.value.value;
      a + |v| <= |t| && v == t[a..a + |v|]
      && (forall k :: 0 <= k < a ==> !IsRunChar(t[k]))
      && (a + |v| < |t| ==> !IsRunChar(t[a + |v|]))
  {
    var t := cell.text;
    var a := RunStart(t, 0).value;
    MaximalRun(t, a);
    assert ReadCell(cell).value.value.value == t[a..RunEnd(t, a)];
  }

  lemma MaximalRun(t: string, a: nat)
    requires RunStart(t, 0) == Some(a)
    ensures var v := t[a..RunEnd(t, a)];
      a + |v| <= |t| && v == t[a..a + |v|]
      && (forall k :: 0 <= k < a ==> !IsRunChar(t[k]))
      && (a + |v| < |t| ==> !IsRunChar(t[a + |v|]))
  {
    assert a + |t[a..RunEnd(t, a)]| == RunEnd(t, a);
  }

  /** The ranking read: from the first link that passes the link test, with its
      parentheses stripped; without such a link, the "Nth" of a "(Nth)" right after the
      value, or "". */
  lemma ReadCellRanking(cell: Cell)
    requires ReadCell(cell).Ok? && ReadCell(cell).value.Some?
    ensures (exists l :: l in cell.links && HasParenOrdinal(l)) ==>
      exists i :: 0 <= i < |cell.links| && HasParenOrdinal(cell.links[i])
        && ReadCell(cell).value.value.ranking == StripParens(cell.links[i])
        && forall j :: 0 <= j < i ==> !HasParenOrdinal(cell.links[j])
    ensures (forall l :: l in cell.links ==> !HasParenOrdinal(l)) ==>
      var g := ReadCell(cell).value.value.ranking;
      g == "" || (|g| >= 3 && IsDigit(g[0]) && g[|g| - 2..] in Suffixes)
  {
    var t := cell.text;
    var a := RunStart(t, 0).value;
    var group := OrdinalGroup(t, SpaceEnd(t, RunEnd(t, a)));
    assert ReadCell(cell).value.value.ranking == Ranking(cell.links, group);
    RankingChoice(cell.links, group);
  }

  /** The ranking: the first matching link with its parentheses stripped, else the regex's
      group. */
  function Ranking(links: seq<string>, group: string): string {
    var link := RankingLink(links);
    if link.Some? then StripParens(link.value) else group
  }

  lemma RankingChoice(links: seq<string>, group: string)
    ensures (exists l :: l in links && HasParenOrdinal(l)) ==>
      exists i :: 0 <= i < |links| && HasParenOrdinal(links[i]) && Ranking(links, group) == StripParens(links[i])
        && forall j :: 0 <= j < i ==> !HasParenOrdinal(links[j])
    ensures (forall l :: l in links ==> !HasParenOrdinal(l)) ==> Ranking(links, group) == group
  {
    var link := RankingLink(links);
  }

  /** A cell without links takes its ranking from the regex group; "25.3 (4th)" reads
      value "25.3" and ranking "4th". */
  lemma RankingFromText()
    ensures ReadCell(Cell("25.3 (4th)", [])) == Ok(Some(Reading("25.3", "4th")))
  {
    var t := "25.3 (4th)";
    assert RunStart(t, 0) == Some(0);
    assert RunEnd(t, 0) == 4 by {
      assert IsRunChar(t[0]) && IsRunChar(t[1]) && IsRunChar(t[2]) && IsRunChar(t[3]) && !IsRunChar(t[4]);
    }
    assert t[0..4] == "25.3";
    assert FloatRun("25.3");
    assert SpaceEnd(t, 4) == 5;
    assert ScanDigits(t, 6) == 7;
    assert t[7..9] == "th";
    assert ParenOrdinal(t, 5) == Some(10);
    assert t[6..9] == "4th";
  }

  // ---------------------------------------------------------------------------
  // The row loop

  /** A td of a row: whether it has class "single", and its contents. */
  datatype Td = Td(single: bool, cell: Cell)

  /** A leaderboard table: its caption (if any) and its rows, each a list of tds. */
  datatype Table = Table(caption: Option<Caption>, rows: seq<seq<Td>>)

  /** A row of the resulting frame. */
  datatype Entry = Entry(statCategory: string, player: string, value: string, ranking: string)

  /** `row.find('td', class_='single') or row.find('td')`. */
  function ChosenTd(tds: seq<Td>): (r: Option<Td>)
    ensures r.None? <==> |tds| == 0
    ensures r.Some? ==> r.value in tds
    ensures r.Some? && !r.value.single ==> r.value == tds[0] && forall t :: t in tds ==> !t.single
  {
    if |tds| == 0 then None
    else
      var i := FirstSingle(tds, 0);
      if i.Some? then Some(tds[i.value]) else Some(tds[0])
  }

  function FirstSingle(tds: seq<Td>, i: nat): (r: Option<nat>)
    requires i <= |tds|
    decreases |tds| - i
    ensures r.Some? ==> i <= r.value < |tds| && tds[r.value].single
    ensures r.None? ==> forall k :: i <= k < |tds| ==> !tds[k].single
  {
    if i == |tds| then None else if tds[i].single then Some(i) else FirstSingle(tds, i + 1)
  }

  /** The entry a row gives, if any: the chosen td needs a link and a value; a ValueError
      while reading it drops the row, as the per-row exception handler does. */
  function RowEntry(stat: string, tds: seq<Td>): (r: Option<Entry>)
    ensures r.Some? ==> ChosenTd(tds).Some? && |ChosenTd(tds).value.cell.links| > 0
    ensures r.Some? ==> r.value.statCategory == stat && r.value.player == Strip(ChosenTd(tds).value.cell.links[0])
  {
    match ChosenTd(tds)
    case None => None
    case Some(td) =>
      if |td.cell.links| == 0 then None
      else
        match ReadCell(td.cell)
        case Err(_) => None
        case Ok(None) => None
        case Ok(Some(reading)) => Some(Entry(stat, Strip(td.cell.links[0]), reading.value, reading.ranking))
  }

  function TableEntries(stat: string, rows: seq<seq<Td>>): seq<Entry> {
    if |rows| == 0 then []
    else
      var n := |rows| - 1;
      var e := RowEntry(stat, rows[n]);
      TableEntries(stat, rows[..n]) + if e.Some? then [e.value] else []
  }

  /** The entries of all tables with a caption, in page order. */
  function AllEntries(tables: seq<Table>): seq<Entry> {
    if |tables| == 0 then []
    else
      var n := |tables| - 1;
      var t := tables[n];
      AllEntries(tables[..n]) + if t.caption.Some? then TableEntries(StatName(t.caption.value), t.rows) else []
  }

  /** The inner loop over one table's rows. */
  method CollectRows(stat: string, rows: seq<seq<Td>>) returns (entries: seq<Entry>)
    ensures entries == TableEntries(stat, rows)
  {
    entries := [];
    var j := 0;
    while j < |rows|
      invariant 0 <= j <= |rows|
      invariant entries == TableEntries(stat, rows[..j])
    {
      assert rows[..j + 1][..j] == rows[..j];
      var e := RowEntry(stat, rows[j]);
      if e.Some? {
        entries := entries + [e.value];
      }
      j := j + 1;
    }
    assert rows[..j] == rows;
  }

  /** The script's main block after the page is fetched: ValueError when the commented
      leaderboard section is missing, otherwise the entries of its tables. */
  method ScrapeLeaderboard(section: Option<seq<Table>>) returns (r: Result<seq<Entry>>)
    ensures section.None? ==> r == Err(ValueError)
    ensures section.Some? ==> r == Ok(AllEntries(section.value))
  {
    if section.None? {
      return Err(ValueError);
    }
    var tables := section.value;
    var data: seq<Entry> := [];
    var i := 0;
    while i < |tables|
      invariant 0 <= i <= |tables|
      invariant data == AllEntries(tables[..i])
    {
      assert tables[..i + 1][..i] == tables[..i];
      var table := tables[i];
      if table.caption.Some? {
        var stat := StatName(table.caption.value);
        var entries := CollectRows(stat, table.rows);
        data := data + entries;
      }
      i := i + 1;
    }
    assert tables[..i] == tables;
    return Ok(data);
  }

  /** Every entry of a table carries the table's stat name, and a table gives at most one
      entry per row. */
  lemma {:induction false} TableEntriesShape(stat: string, rows: seq<seq<Td>>)
    ensures |TableEntries(stat, rows)| <= |rows|
    ensures forall e :: e in TableEntries(stat, rows) ==> e.statCategory == stat
  {
    if |rows| > 0 {
      TableEntriesShape(stat, rows[..|rows| - 1]);
    }
  }
}
