/** The game-clock parser and the free-throw predicates shared by the two in-game
    play-by-play scripts (in_game_play_by_play.py and in_game_plus_minus.py define
    them identically).

    A clock string is an ISO 8601 duration in designator form
    (section 4.4.3.2 of ISO 8601:2004), e.g. "PT06M06.00S". Seconds are kept as
    integer hundredths. */
module GameClock {
  import opened Wrappers
  import opened Text

  datatype ClockParts = ClockParts(minutes: nat, seconds: nat, fraction: string)

  /** `re.match(r'PT(\d+)M(\d+\.\d+)S', s)`: anchored at the start only; each digit
      run is maximal because the character after it must be a non-digit. */
  function MatchClock(s: string): (r: Option<ClockParts>)
    ensures r.Some? ==> StartsWith(s, "PT") && 1 <= |r.value.fraction| && AllDigits(r.value.fraction)
  {
    if !StartsWith(s, "PT") then None
    else
      var a := ScanDigits(s, 2);
      if a == 2 || a >= |s| || s[a] != 'M' then None
      else
        var b := ScanDigits(s, a + 1);
        if b == a + 1 || b >= |s| || s[b] != '.' then None
        else
          var c := ScanDigits(s, b + 1);
          if c == b + 1 || c >= |s| || s[c] != 'S' then None
          else Some(ClockParts(DigitsValue(s[2..a]), DigitsValue(s[a + 1..b]), s[b + 1..c]))
  }

  /** `s` is "PT", a digit run ending at `a`, 'M', a digit run ending at `b`, '.',
      a digit run ending at `c`, then 'S' (and anything after it). */
  predicate ClockShape(s: string, a: nat, b: nat, c: nat) {
    StartsWith(s, "PT") && 2 < a && a + 1 < b && b + 1 < c && c < |s|
    && AllDigits(s[2..a]) && s[a] == 'M'
    && AllDigits(s[a + 1..b]) && s[b] == '.'
    && AllDigits(s[b + 1..c]) && s[c] == 'S'
  }

  /** Every text of the clock shape matches, and the match captures its three digit runs. */
  lemma MatchClockParts(s: string, a: nat, b: nat, c: nat)
    requires ClockShape(s, a, b, c)
    ensures MatchClock(s) == Some(ClockParts(DigitsValue(s[2..a]), DigitsValue(s[a + 1..b]), s[b + 1..c]))
  {
    RunScanned(s, 2, a);
    RunScanned(s, a + 1, b);
    RunScanned(s, b + 1, c);
  }

  /** A digit run `s[i..j]` followed by a letter or a point is what ScanDigits finds. */
  lemma RunScanned(s: string, i: nat, j: nat)
    requires i <= j < |s| && AllDigits(s[i..j]) && (s[j] == 'M' || s[j] == '.' || s[j] == 'S')
    ensures ScanDigits(s, i) == j
  {
    forall k | i <= k < j
      ensures IsDigit(s[k])
    {
      assert s[k] == s[i..j][k - i];
    }
    ScanFrom(s, i, j);
  }

  /** The pattern matches exactly the texts of the clock shape. */
  lemma MatchClockShape(s: string)
    ensures MatchClock(s).Some? <==> exists a: nat, b: nat, c: nat :: ClockShape(s, a, b, c)
  {
    if MatchClock(s).Some? {
      var a := ScanDigits(s, 2);
      var b := ScanDigits(s, a + 1);
      var c := ScanDigits(s, b + 1);
      assert ClockShape(s, a, b, c);
    }
    if exists a: nat, b: nat, c: nat :: ClockShape(s, a, b, c) {
      var a: nat, b: nat, c: nat :| ClockShape(s, a, b, c);
      MatchClockParts(s, a, b, c);
    }
  }

  /** Hundredths of a second given by the digits after the decimal point. */
  function Hundredths(fraction: string): (h: nat)
    requires 1 <= |fraction| && AllDigits(fraction)
    ensures h < 100
  {
    if |fraction| == 1 then DigitValue(fraction[0]) * 10
    else DigitValue(fraction[0]) * 10 + DigitValue(fraction[1])
  }

  /** parse_clock: minutes * 60 + seconds, in hundredths; 0 for any other shape. */
  function ParseClock(s: string): (t: nat)
    ensures MatchClock(s).None? ==> t == 0
  {
    match MatchClock(s)
    case None => 0
    case Some(p) => p.minutes * 6000 + p.seconds * 100 + Hundredths(p.fraction)
  }

  /** Two decimal digits, zero padded. */
  function Pad2(n: nat): (r: string)
    requires n < 100
    ensures |r| == 2 && AllDigits(r)
  {
    [DigitChar(n / 10), DigitChar(n % 10)]
  }

  lemma Pad2Value(n: nat)
    requires n < 100
    ensures DigitsValue(Pad2(n)) == n
  {
    var r := Pad2(n);
    assert r[..1] == [r[0]];
    assert r[..1][..0] == [];
    assert DigitValue(r[0]) == n / 10 && DigitValue(r[1]) == n % 10;
    assert DigitsValue(r[..1]) == n / 10;
  }

  /** The clock text the feed sends: "PT<mm>M<ss>.<hh>S". */
  function ClockText(m: nat, sec: nat, h: nat): string
    requires m < 100 && sec < 100 && h < 100
  {
    "PT" + Pad2(m) + "M" + Pad2(sec) + "." + Pad2(h) + "S"
  }

  lemma ScanTwoDigits(s: string, i: nat)
    requires i + 2 < |s| && IsDigit(s[i]) && IsDigit(s[i + 1]) && !IsDigit(s[i + 2])
    ensures ScanDigits(s, i) == i + 2
  {
  }

  /** Parsing the feed's clock text gives back the time it encodes. */
  lemma ParseClockText(m: nat, sec: nat, h: nat)
    requires m < 100 && sec < 100 && h < 100
    ensures ParseClock(ClockText(m, sec, h)) == m * 6000 + sec * 100 + h
  {
    var s := ClockText(m, sec, h);
    assert s[..2] == "PT";
    assert s[2..4] == Pad2(m) && s[5..7] == Pad2(sec) && s[8..10] == Pad2(h);
    assert s[4] == 'M' && s[7] == '.' && s[10] == 'S';
    ScanTwoDigits(s, 2);
    ScanTwoDigits(s, 5);
    ScanTwoDigits(s, 8);
    Pad2Value(m);
    Pad2Value(sec);
    assert MatchClock(s) == Some(ClockParts(m, sec, Pad2(h)));
  }

  /** A clock without a decimal point, such as whole-second "PT12M00S", parses as 0. */
  lemma NoDecimalPointIsZero(s: string)
    requires forall i :: 0 <= i < |s| ==> s[i] != '.'
    ensures ParseClock(s) == 0
  {
  }

  // ---------------------------------------------------------------------------
  // Free throws

  /** `re.match(r'(\d+) of (\d+)', sub)`: the two shot numbers, when present. */
  function MatchShotOf(sub: string): (r: Option<(nat, nat)>)
  {
    var a := ScanDigits(sub, 0);
    if a == 0 || !StartsWith(sub[a..], " of ") then None
    else
      var b := ScanDigits(sub, a + 4);
      if b == a + 4 then None
      else Some((DigitsValue(sub[..a]), DigitsValue(sub[a + 4..b])))
  }

  /** is_start_of_free_throw: a free throw whose (non-empty) subType contains "1 of". */
  predicate IsStartOfFreeThrow(actionType: string, subType: Option<string>) {
    actionType == "freethrow" && subType.Some? && |subType.value| > 0 && Contains(subType.value, "1 of")
  }

  /** is_end_of_free_throw: a free throw without subType, with an unparsable one,
      or whose "N of M" has N == M. */
  predicate IsEndOfFreeThrow(actionType: string, subType: Option<string>) {
    if actionType != "freethrow" then false
    else if subType.None? then true
    else
      match MatchShotOf(subType.value)
      case Some((n, m)) => n == m
      case None => true
  }

  /** The subType text the feed uses for the n-th of m free throws. */
  function ShotLabel(n: nat, m: nat): string {
    NatToString(n) + " of " + NatToString(m)
  }

  lemma MatchShotLabel(n: nat, m: nat)
    ensures MatchShotOf(ShotLabel(n, m)) == Some((n, m))
  {
    var a := NatToString(n);
    var b := NatToString(m);
    var s := ShotLabel(n, m);
    assert s[..|a|] == a;
    assert s[|a|..][..4] == " of ";
    assert ScanDigits(s, 0) == |a| by {
      assert forall k :: 0 <= k < |a| ==> s[k] == a[k];
      ScanFrom(s, 0, |a|);
    }
    assert ScanDigits(s, |a| + 4) == |s| by {
      assert forall k :: |a| + 4 <= k < |s| ==> s[k] == b[k - |a| - 4];
      ScanFrom(s, |a| + 4, |s|);
    }
    assert s[|a| + 4..|s|] == b;
    DigitsOfNat(n);
    DigitsOfNat(m);
  }

  /** The N-th of M free throws ends the sequence exactly when N == M. */
  lemma EndOfFreeThrowLabel(n: nat, m: nat)
    ensures IsEndOfFreeThrow("freethrow", Some(ShotLabel(n, m))) <==> n == m
  {
    MatchShotLabel(n, m);
  }

  /** The first of M free throws opens a sequence. */
  lemma StartOfFreeThrowLabel(m: nat)
    ensures IsStartOfFreeThrow("freethrow", Some(ShotLabel(1, m)))
  {
    ContainsPrefix(ShotLabel(1, m), "1 of");
  }
}
