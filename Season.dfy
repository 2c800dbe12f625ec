/** get_current_season, defined identically in lineup_data_for_web_app.py,
    Get_Wolves_Player_Stats_Basic.py and nba_players_3pt.py: the NBA season
    string ("2024-25") for a calendar date. The date is a parameter. */
module Season {
  import opened Wrappers
  import opened Text
  import opened GameClock

  /** `s[-2:]`: the last two characters, or all of a shorter text. */
  function LastTwo(s: string): (r: string)
    ensures |r| == if |s| < 2 then |s| else 2
    ensures EndsWith(s, r)
  {
    if |s| < 2 then s else s[|s| - 2..]
  }

  /** The year a season starts in: October onwards opens a new season. */
  function SeasonStart(year: nat, month: int): int {
    if month >= 10 then year else year - 1
  }

  /** get_current_season for a date in `year` and `month` (1..12). */
  function CurrentSeason(year: nat, month: int): (s: string)
    requires 1 <= year && 1 <= month <= 12
    ensures StartsWith(s, NatToString(SeasonStart(year, month)) + "-")
  {
    var start: nat := if month >= 10 then year else year - 1;
    var end: nat := if month >= 10 then year + 1 else year;
    NatToString(start) + "-" + LastTwo(NatToString(end))
  }

  /** The last two characters of `str(n)` are n's last two digits, zero padded. */
  lemma LastTwoDigits(n: nat)
    requires n >= 10
    ensures LastTwo(NatToString(n)) == Pad2(n % 100)
  {
    var q := n / 10;
    var t := NatToString(q);
    assert NatToString(n) == t + [DigitChar(n % 10)];
    assert t[|t| - 1] == DigitChar(q % 10);
    TensDigit(n);
  }

  lemma TensDigit(n: nat)
    ensures (n / 10) % 10 == (n % 100) / 10
    ensures (n % 100) % 10 == n % 10
  {
    var a := n / 100;
    var m := n % 100;
    DivTen(m, m / 10, m % 10);
    DivTen(n, 10 * a + m / 10, m % 10);
    DivTen(n / 10, a, m / 10);
  }

  lemma DivTen(n: int, q: int, r: int)
    requires n == 10 * q + r && 0 <= r < 10
    ensures n / 10 == q && n % 10 == r
  {
  }

  /** The season string is the start year, a dash, and the two-digit end year, where
      the end year is the start year plus one. */
  lemma {:induction false} SeasonText(year: nat, month: int)
    requires 11 <= year && 1 <= month <= 12
    ensures CurrentSeason(year, month)
      == NatToString(SeasonStart(year, month)) + "-" + Pad2((SeasonStart(year, month) + 1) % 100)
  {
    var start := SeasonStart(year, month);
    LastTwoDigits(start + 1);
  }

  /** Reading the string back: the part before the dash is the start year and the part
      after it is the end year modulo 100. */
  lemma SeasonDecode(year: nat, month: int)
    requires 11 <= year && 1 <= month <= 12
    ensures var parts := SplitOn(CurrentSeason(year, month), "-");
      |parts| == 2 && AllDigits(parts[0]) && AllDigits(parts[1])
      && DigitsValue(parts[0]) == SeasonStart(year, month)
      && DigitsValue(parts[1]) == (SeasonStart(year, month) + 1) % 100
  {
    var start: nat := SeasonStart(year, month);
    SeasonText(year, month);
    SplitDash(NatToString(start), Pad2((start + 1) % 100));
    DigitsOfNat(start);
    Pad2Value((start + 1) % 100);
  }

  lemma SplitDash(a: string, b: string)
    requires AllDigits(a) && AllDigits(b)
    ensures SplitOn(a + "-" + b, "-") == [a, b]
  {
    var s := a + "-" + b;
    NoDashFirst(a, b);
    assert s[..|a|] == a;
    assert s[|a| + 1..] == b;
    NoDashSplit(b);
  }

  lemma NoDashFirst(a: string, b: string)
    requires AllDigits(a)
    ensures Find(a + "-" + b, "-") == Some(|a|)
  {
    var s := a + "-" + b;
    assert OccursAt(s, "-", |a|) by {
      assert s[|a|..|a| + 1] == "-";
    }
    forall j | 0 <= j < |a|
      ensures !OccursAt(s, "-", j)
    {
      assert s[j..j + 1][0] == a[j];
    }
    FindIsFirst(s, "-", |a|);
  }

  lemma NoDashSplit(b: string)
    requires AllDigits(b)
    ensures SplitOn(b, "-") == [b]
  {
    AbsentFirstChar(b, "-");
  }

  /** October to December and the following January to September name the same season. */
  lemma SeasonSpansNewYear(year: nat, autumn: int, spring: int)
    requires 1 <= year && 10 <= autumn <= 12 && 1 <= spring <= 9
    ensures CurrentSeason(year, autumn) == CurrentSeason(year + 1, spring)
  {
  }
}
