/** Python's `float()` on text: which strings it accepts, and the value of the plain
    decimal ones in integer hundredths. */
module Numbers {
  import opened Wrappers
  import opened Text

  /** The text after an optional leading '+' or '-'. */
  function Unsigned(t: string): (r: string)
    ensures |r| <= |t|
  {
    if |t| > 0 && (t[0] == '+' || t[0] == '-') then t[1..] else t
  }

  predicate Negative(t: string) {
    |t| > 0 && t[0] == '-'
  }

  /** Position just past the digits after a decimal point at `a`, or `a` itself
      when there is no point there. */
  function AfterFraction(r: string, a: nat): (b: nat)
    requires a <= |r|
    ensures a <= b <= |r|
  {
    if a < |r| && r[a] == '.' then ScanDigits(r, a + 1) else a
  }

  /** `digits [. digits]` or `. digits` from the start of `r`, ending at `b`; at least one digit. */
  predicate MantissaEndsAt(r: string, b: nat) {
    var a := ScanDigits(r, 0);
    AfterFraction(r, a) == b && (a > 0 || b > a + 1)
  }

  /** The optional exponent `e [sign] digits` spanning `r[b..]` exactly. */
  predicate ExponentFrom(r: string, b: nat)
    requires b <= |r|
  {
    b == |r| ||
      (r[b] in "eE" &&
        var c := if b + 1 < |r| && r[b + 1] in "+-" then b + 2 else b + 1;
        c <= |r| && ScanDigits(r, c) > c && ScanDigits(r, c) == |r|)
  }

  /** Whether `float(s)` succeeds: surrounding whitespace, an optional sign, then a decimal
      mantissa with an optional exponent, or one of "inf", "infinity", "nan" in any case. */
  predicate IsFloatText(s: string) {
    var r := Unsigned(Strip(s));
    var b := AfterFraction(r, ScanDigits(r, 0));
    Lower(r) in {"inf", "infinity", "nan"} || (MantissaEndsAt(r, b) && ExponentFrom(r, b))
  }

  /** Hundredths given by the digits after a decimal point; the rest are dropped. */
  function FractionHundredths(f: string): (h: nat)
    requires AllDigits(f)
    ensures h < 100
  {
    if |f| == 0 then 0
    else if |f| == 1 then DigitValue(f[0]) * 10
    else DigitValue(f[0]) * 10 + DigitValue(f[1])
  }

  /** The value, in hundredths, of an unsigned plain decimal `digits [. digits]` or
      `. digits`; None for anything else. */
  function UnsignedHundredths(u: string): (r: Option<nat>)
    ensures r.Some? ==> MantissaEndsAt(u, |u|)
  {
    var a := ScanDigits(u, 0);
    var b := AfterFraction(u, a);
    if b != |u| || !MantissaEndsAt(u, b) then None
    else Some(DigitsValue(u[..a]) * 100 + (if b > a then FractionHundredths(u[a + 1..b]) else 0))
  }

  /** `float(s)` in hundredths, truncated toward zero, for the plain decimal forms
      (no exponent); None for anything else. */
  function DecimalHundredths(s: string): (r: Option<int>)
    ensures r.Some? ==> IsFloatText(s)
  {
    var t := Strip(s);
    match UnsignedHundredths(Unsigned(t))
    case None => None
    case Some(v) =>
      var m: int := v;
      Some(if Negative(t) then -m else m)
  }

  /** "<digits>.<digits>" is read as the whole part and the first two fraction digits. */
  lemma DecimalTextValue(n: string, f: string)
    requires |n| >= 1 && AllDigits(n) && AllDigits(f)
    ensures DecimalHundredths(n + "." + f) == Some(DigitsValue(n) * 100 + FractionHundredths(f))
  {
    DecimalEdges(n, f);
    UnsignedTextValue(n, f);
    PlainDecimal(n + "." + f);
  }

  /** "<digits>.<digits>" starts with a digit and ends with a digit or the point. */
  lemma DecimalEdges(n: string, f: string)
    requires |n| >= 1 && AllDigits(n) && AllDigits(f)
    ensures var s := n + "." + f;
      |s| > 0 && !IsSpace(s[0]) && !IsSpace(s[|s| - 1]) && s[0] != '+' && s[0] != '-'
  {
    var s := n + "." + f;
    assert s[0] == n[0] && IsDigit(n[0]);
    assert s[|s| - 1] == if |f| > 0 then f[|f| - 1] else '.';
  }

  /** Text with no surrounding whitespace and no sign reads as its unsigned value. */
  lemma PlainDecimal(s: string)
    requires |s| > 0 && !IsSpace(s[0]) && !IsSpace(s[|s| - 1]) && s[0] != '+' && s[0] != '-'
    requires UnsignedHundredths(s).Some?
    ensures DecimalHundredths(s) == Some(UnsignedHundredths(s).value)
  {
    LStripNoEdge(s);
    RStripNoEdge(s);
    assert Strip(s) == s;
    assert Unsigned(s) == s && !Negative(s);
  }

  lemma UnsignedTextValue(n: string, f: string)
    requires |n| >= 1 && AllDigits(n) && AllDigits(f)
    ensures UnsignedHundredths(n + "." + f) == Some(DigitsValue(n) * 100 + FractionHundredths(f))
  {
    var s := n + "." + f;
    ScanPastFraction(n, f);
    assert s[..|n|] == n;
    assert s[|n| + 1..] == f;
    HundredthsOfParts(s, |n|, n, f);
  }

  /** An unsigned decimal whose whole digits `w` end at `a` and whose fraction `fr` runs
      to the end has the value of those two parts. */
  lemma HundredthsOfParts(u: string, a: nat, w: string, fr: string)
    requires 0 < a < |u| && ScanDigits(u, 0) == a && AfterFraction(u, a) == |u|
    requires u[..a] == w && u[a + 1..] == fr && AllDigits(w) && AllDigits(fr)
    ensures UnsignedHundredths(u) == Some(DigitsValue(w) * 100 + FractionHundredths(fr))
  {
    var b := AfterFraction(u, a);
    assert b == |u| && b > a;
    assert MantissaEndsAt(u, b);
    assert u[a + 1..b] == fr;
  }

  lemma ScanPastFraction(n: string, f: string)
    requires |n| >= 1 && AllDigits(n) && AllDigits(f)
    ensures ScanDigits(n + "." + f, 0) == |n|
    ensures AfterFraction(n + "." + f, |n|) == |n| + 1 + |f|
  {
    var s := n + "." + f;
    assert s[|n|] == '.';
    assert forall k :: 0 <= k < |n| ==> IsDigit(s[k]) by {
      forall k | 0 <= k < |n| ensures IsDigit(s[k]) {
        assert s[k] == n[k];
      }
    }
    ScanFrom(s, 0, |n|);
    assert forall k :: |n| + 1 <= k < |s| ==> IsDigit(s[k]) by {
      forall k | |n| + 1 <= k < |s| ensures IsDigit(s[k]) {
        assert s[k] == f[k - |n| - 1];
      }
    }
    ScanFrom(s, |n| + 1, |s|);
  }

  /** Every `str(n)` is accepted by `float()`, with value n. */
  lemma NatTextValue(n: nat)
    ensures DecimalHundredths(NatToString(n)) == Some(n * 100)
  {
    var s := NatToString(n);
    assert !IsSpace(s[0]) && !IsSpace(s[|s| - 1]);
    DigitsHundredths(s);
    DigitsOfNat(n);
    PlainDecimal(s);
  }

  /** A run of digits is an unsigned decimal worth its digits. */
  lemma DigitsHundredths(s: string)
    requires |s| > 0 && AllDigits(s)
    ensures UnsignedHundredths(s) == Some(DigitsValue(s) * 100)
  {
    ScanFrom(s, 0, |s|);
    assert s[..|s|] == s;
  }

  /** Text without any digit is never a decimal number. */
  lemma NoDigitNoDecimal(s: string)
    requires forall i :: 0 <= i < |s| ==> !IsDigit(s[i])
    ensures DecimalHundredths(s).None?
  {
    StripKeepsNoDigit(s);
    UnsignedKeepsNoDigit(Strip(s));
    var u := Unsigned(Strip(s));
    assert ScanDigits(u, 0) == 0;
    if 0 < |u| && u[0] == '.' {
      assert ScanDigits(u, 1) == 1 by {
        if 1 < |u| {
          assert !IsDigit(u[1]);
        }
      }
    }
  }

  lemma StripKeepsNoDigit(s: string)
    requires forall i :: 0 <= i < |s| ==> !IsDigit(s[i])
    ensures forall i :: 0 <= i < |Strip(s)| ==> !IsDigit(Strip(s)[i])
  {
    var t := Strip(s);
    assert exists k :: OccursAt(s, t, k);
    var k :| OccursAt(s, t, k);
    assert forall i :: 0 <= i < |t| ==> t[i] == s[k + i];
  }

  lemma UnsignedKeepsNoDigit(t: string)
    requires forall i :: 0 <= i < |t| ==> !IsDigit(t[i])
    ensures forall i :: 0 <= i < |Unsigned(t)| ==> !IsDigit(Unsigned(t)[i])
  {
    var u := Unsigned(t);
    forall i | 0 <= i < |u|
      ensures !IsDigit(u[i])
    {
      if |u| < |t| {
        assert u[i] == t[i + 1];
      } else {
        assert u[i] == t[i];
      }
    }
  }

}
