/** Python string semantics the scripts rely on: character classes, `strip`,
    `lower`/`upper`, substring search, `split`/`join` on a literal separator,
    `str(int)` and `int(str)`, and string comparison.
    Characters are classified as Python classifies them within Latin-1 (U+0000..U+00FF). */
module Text {
  import opened Wrappers

  // ---------------------------------------------------------------------------
  // Character classes

  /** `str.isspace()` and the regex class `\s`. */
  predicate IsSpace(c: char) {
    9 <= c as int <= 13 || 28 <= c as int <= 32 || c as int == 0x85 || c as int == 0xA0
  }

  /** The regex class `\d` (decimal digits; within Latin-1 only the ASCII ones). */
  predicate IsDigit(c: char) {
    '0' <= c <= '9'
  }

  predicate IsUpperLetter(c: char) {
    'A' <= c <= 'Z' || (0xC0 <= c as int <= 0xDE && c as int != 0xD7)
  }

  predicate IsLowerLetter(c: char) {
    'a' <= c <= 'z' || (0xDF <= c as int <= 0xFF && c as int != 0xF7)
  }

  /** `str.isalnum()`: letters, digits and numeric characters. */
  predicate IsAlnum(c: char) {
    IsDigit(c) || IsUpperLetter(c) || IsLowerLetter(c)
    || c as int in {0xAA, 0xB2, 0xB3, 0xB5, 0xB9, 0xBA, 0xBC, 0xBD, 0xBE}
  }

  function LowerChar(c: char): (r: char)
    ensures IsUpperLetter(c) ==> IsLowerLetter(r) && r as int == c as int + 32
    ensures !IsUpperLetter(c) ==> r == c
  {
    if IsUpperLetter(c) then (c as int + 32) as char else c
  }

  /** `str.upper()` for the characters whose upper case is a single Latin-1 character. */
  function UpperChar(c: char): (r: char)
    ensures ('a' <= c <= 'z' || (0xE0 <= c as int <= 0xFE && c as int != 0xF7)) ==> r as int == c as int - 32
    ensures !('a' <= c <= 'z' || (0xE0 <= c as int <= 0xFE && c as int != 0xF7)) ==> r == c
  {
    if 'a' <= c <= 'z' || (0xE0 <= c as int <= 0xFE && c as int != 0xF7) then (c as int - 32) as char else c
  }

  function Lower(s: string): (r: string)
    ensures |r| == |s| && forall i :: 0 <= i < |s| ==> r[i] == LowerChar(s[i])
  {
    seq(|s|, i requires 0 <= i < |s| => LowerChar(s[i]))
  }

  function Upper(s: string): (r: string)
    ensures |r| == |s| && forall i :: 0 <= i < |s| ==> r[i] == UpperChar(s[i])
  {
    seq(|s|, i requires 0 <= i < |s| => UpperChar(s[i]))
  }

  lemma LowerIdempotent(s: string)
    ensures Lower(Lower(s)) == Lower(s)
  {
    assert forall i :: 0 <= i < |s| ==> LowerChar(LowerChar(s[i])) == LowerChar(s[i]);
  }

  // ---------------------------------------------------------------------------
  // strip

  function LStrip(s: string): (r: string)
    ensures |r| <= |s| && r == s[|s| - |r|..]
    ensures |r| > 0 ==> !IsSpace(r[0])
    ensures forall i :: 0 <= i < |s| - |r| ==> IsSpace(s[i])
  {
    if |s| > 0 && IsSpace(s[0]) then LStrip(s[1..]) else s
  }

  function RStrip(s: string): (r: string)
    ensures |r| <= |s| && r == s[..|r|]
    ensures |r| > 0 ==> !IsSpace(r[|r| - 1])
    ensures forall i :: |r| <= i < |s| ==> IsSpace(s[i])
  {
    if |s| > 0 && IsSpace(s[|s| - 1]) then RStrip(s[..|s| - 1]) else s
  }

  /** `str.strip()`: drop whitespace at both ends. */
  function Strip(s: string): (r: string)
    ensures |r| > 0 ==> !IsSpace(r[0]) && !IsSpace(r[|r| - 1])
    ensures exists k :: OccursAt(s, r, k)
  {
    var l := LStrip(s);
    var r := RStrip(l);
    assert OccursAt(s, r, |s| - |l|);
    r
  }

  lemma {:induction false} LStripNoEdge(s: string)
    requires |s| > 0 ==> !IsSpace(s[0])
    ensures LStrip(s) == s
  {
  }

  lemma {:induction false} RStripNoEdge(s: string)
    requires |s| > 0 ==> !IsSpace(s[|s| - 1])
    ensures RStrip(s) == s
  {
  }

  /** Stripping a string twice changes nothing more. */
  lemma StripIdempotent(s: string)
    ensures Strip(Strip(s)) == Strip(s)
  {
    var t := Strip(s);
    LStripNoEdge(t);
    RStripNoEdge(t);
  }

  /** Every character is whitespace. */
  predicate AllSpace(w: string) {
    forall i :: 0 <= i < |w| ==> IsSpace(w[i])
  }

  /** Leading whitespace is dropped by `lstrip`. */
  lemma {:induction false} LStripSpaces(w: string, t: string)
    requires AllSpace(w)
    ensures LStrip(w + t) == LStrip(t)
  {
    if |w| > 0 {
      assert (w + t)[0] == w[0] && (w + t)[1..] == w[1..] + t;
      LStripSpaces(w[1..], t);
    } else {
      assert w + t == t;
    }
  }

  /** Trailing whitespace is dropped by `rstrip`. */
  lemma {:induction false} RStripSpaces(t: string, w: string)
    requires AllSpace(w)
    ensures RStrip(t + w) == RStrip(t)
  {
    if |w| > 0 {
      var n := |w| - 1;
      assert (t + w)[|t + w| - 1] == w[n] && (t + w)[..|t + w| - 1] == t + w[..n];
      RStripSpaces(t, w[..n]);
    } else {
      assert t + w == t;
    }
  }

  /** Text after a non-blank stretch survives `lstrip` unchanged. */
  lemma {:induction false} LStripAppend(s: string, t: string)
    requires LStrip(s) != ""
    ensures LStrip(s + t) == LStrip(s) + t
  {
    if IsSpace(s[0]) {
      assert (s + t)[0] == s[0] && (s + t)[1..] == s[1..] + t;
      LStripAppend(s[1..], t);
    }
  }

  /** Surrounding whitespace does not change the stripped text. */
  lemma StripPadded(w1: string, s: string, w2: string)
    requires AllSpace(w1) && AllSpace(w2)
    ensures Strip(w1 + s + w2) == Strip(s)
  {
    assert w1 + s + w2 == w1 + (s + w2);
    LStripSpaces(w1, s + w2);
    if LStrip(s) != "" {
      LStripAppend(s, w2);
      RStripSpaces(LStrip(s), w2);
    } else {
      assert AllSpace(s);
      LStripSpaces(s, w2);
      LStripSpaces(w2, "");
      assert w2 + "" == w2;
    }
  }

  /** Lower-casing never turns a character into whitespace or whitespace into another. */
  lemma LowerCharSpace(c: char)
    ensures IsSpace(LowerChar(c)) <==> IsSpace(c)
  {
  }

  lemma {:induction false} LowerLStrip(s: string)
    ensures Lower(LStrip(s)) == LStrip(Lower(s))
  {
    if |s| > 0 {
      LowerCharSpace(s[0]);
      if IsSpace(s[0]) {
        assert Lower(s)[1..] == Lower(s[1..]);
        LowerLStrip(s[1..]);
      }
    }
  }

  lemma {:induction false} LowerRStrip(s: string)
    ensures Lower(RStrip(s)) == RStrip(Lower(s))
  {
    if |s| > 0 {
      var n := |s| - 1;
      LowerCharSpace(s[n]);
      if IsSpace(s[n]) {
        assert Lower(s)[..n] == Lower(s[..n]);
        LowerRStrip(s[..n]);
      }
    }
  }

  /** Stripping and lower-casing commute. */
  lemma LowerStrip(s: string)
    ensures Lower(Strip(s)) == Strip(Lower(s))
  {
    LowerLStrip(s);
    LowerRStrip(LStrip(s));
  }

  /** `str.rstrip(c)` for a single character. */
  function RStripChar(s: string, c: char): (r: string)
    ensures |r| <= |s| && r == s[..|r|]
    ensures |r| > 0 ==> r[|r| - 1] != c
    ensures forall i :: |r| <= i < |s| ==> s[i] == c
  {
    if |s| > 0 && s[|s| - 1] == c then RStripChar(s[..|s| - 1], c) else s
  }

  /** `str.lstrip(c)` for a single character. */
  function LStripChar(s: string, c: char): (r: string)
    ensures |r| <= |s| && r == s[|s| - |r|..]
    ensures |r| > 0 ==> r[0] != c
    ensures forall i :: 0 <= i < |s| - |r| ==> s[i] == c
  {
    if |s| > 0 && s[0] == c then LStripChar(s[1..], c) else s
  }

  // ---------------------------------------------------------------------------
  // Substring search

  predicate StartsWith(s: string, p: string) {
    |p| <= |s| && s[..|p|] == p
  }

  predicate EndsWith(s: string, p: string) {
    |p| <= |s| && s[|s| - |p|..] == p
  }

  predicate OccursAt(s: string, p: string, j: int) {
    0 <= j && j + |p| <= |s| && s[j..j + |p|] == p
  }

  /** The leftmost occurrence of `p` in `s` at or after position `i` (`str.find`). */
  function FindFrom(s: string, p: string, i: nat): (r: Option<nat>)
    decreases |s| - i
    ensures r.Some? ==> i <= r.value && OccursAt(s, p, r.value)
    ensures r.Some? ==> forall j :: i <= j < r.value ==> !OccursAt(s, p, j)
    ensures r.None? ==> forall j :: i <= j ==> !OccursAt(s, p, j)
  {
    if i + |p| > |s| then None
    else if s[i..i + |p|] == p then Some(i)
    else FindFrom(s, p, i + 1)
  }

  function Find(s: string, p: string): Option<nat> {
    FindFrom(s, p, 0)
  }

  /** Python's `p in s`. */
  predicate Contains(s: string, p: string) {
    Find(s, p).Some?
  }

  lemma ContainsIff(s: string, p: string)
    ensures Contains(s, p) <==> exists j :: OccursAt(s, p, j)
  {
    if Contains(s, p) {
      assert OccursAt(s, p, Find(s, p).value);
    }
  }

  /** A pattern whose first character never occurs in `s` is not contained in it. */
  lemma AbsentFirstChar(s: string, p: string)
    requires |p| > 0 && forall i :: 0 <= i < |s| ==> s[i] != p[0]
    ensures !Contains(s, p)
  {
    forall j | 0 <= j
      ensures !OccursAt(s, p, j)
    {
      if j + |p| <= |s| {
        assert s[j..j + |p|][0] == s[j];
      }
    }
    ContainsIff(s, p);
  }

  /** Find returns exactly the first occurrence. */
  lemma FindIsFirst(s: string, p: string, k: nat)
    requires OccursAt(s, p, k)
    requires forall j :: 0 <= j < k ==> !OccursAt(s, p, j)
    ensures Find(s, p) == Some(k)
  {
  }

  lemma ContainsPrefix(s: string, p: string)
    requires StartsWith(s, p)
    ensures Contains(s, p)
  {
    assert OccursAt(s, p, 0);
  }

  // ---------------------------------------------------------------------------
  // split / join on a literal separator

  /** `s.replace(p, "")`: every non-overlapping occurrence of `p`, scanning left to right, removed. */
  function RemoveAll(s: string, p: string): (r: string)
    requires |p| > 0
    decreases |s|
    ensures |r| <= |s|
    ensures !Contains(s, p) ==> r == s
  {
    match Find(s, p)
    case None => s
    case Some(k) => s[..k] + RemoveAll(s[k + |p|..], p)
  }

  /** `sep.join(xs)`. */
  function Join(xs: seq<string>, sep: string): string {
    if |xs| == 0 then ""
    else if |xs| == 1 then xs[0]
    else xs[0] + sep + Join(xs[1..], sep)
  }

  /** `s.split(sep)` for a non-empty literal separator. */
  function SplitOn(s: string, sep: string): (r: seq<string>)
    requires |sep| > 0
    decreases |s|
    ensures |r| >= 1
  {
    match Find(s, sep)
    case None => [s]
    case Some(k) => [s[..k]] + SplitOn(s[k + |sep|..], sep)
  }

  function SumLengths(xs: seq<string>): nat {
    if |xs| == 0 then 0 else |xs[0]| + SumLengths(xs[1..])
  }

  /** The joined string holds every piece plus one separator between each pair. */
  lemma {:induction false} JoinLength(xs: seq<string>, sep: string)
    requires |xs| >= 1
    ensures |Join(xs, sep)| == SumLengths(xs) + |sep| * (|xs| - 1)
  {
    if |xs| > 1 {
      JoinLength(xs[1..], sep);
    }
  }

  const Comma: string := ", "

  /** With ", " as separator, a piece free of ", " never lets an occurrence start
      inside it, so the first occurrence in `x + ", " + rest` is the one after `x`. */
  lemma CommaSeparatorFirst(x: string, rest: string)
    requires !Contains(x, Comma)
    ensures Find(x + Comma + rest, Comma) == Some(|x|)
  {
    var s := x + Comma + rest;
    assert OccursAt(s, Comma, |x|) by {
      assert s[|x|..|x| + 2] == Comma;
    }
    forall j | 0 <= j < |x|
      ensures !OccursAt(s, Comma, j)
    {
      if j + 2 <= |x| {
        if OccursAt(s, Comma, j) {
          assert s[j..j + 2] == x[j..j + 2];
          assert OccursAt(x, Comma, j);
          ContainsIff(x, Comma);
        }
      } else {
        assert s[j + 1] == ',';
      }
    }
    FindIsFirst(s, Comma, |x|);
  }

  /** A string without a comma cannot contain ", ". */
  lemma NoCommaNoSeparator(s: string)
    requires forall i :: 0 <= i < |s| ==> s[i] != ','
    ensures !Contains(s, Comma)
  {
    forall j
      ensures !OccursAt(s, Comma, j)
    {
      if 0 <= j && j + 2 <= |s| {
        assert s[j..j + 2][0] == s[j] != ',';
      }
    }
    ContainsIff(s, Comma);
  }

  /** Splitting a ", "-joined list restores it when no piece contains ", ". */
  lemma {:induction false} SplitJoinComma(xs: seq<string>)
    requires |xs| >= 1
    requires forall i :: 0 <= i < |xs| ==> !Contains(xs[i], Comma)
    ensures SplitOn(Join(xs, Comma), Comma) == xs
  {
    if |xs| == 1 {
    } else {
      var rest := Join(xs[1..], Comma);
      CommaSeparatorFirst(xs[0], rest);
      var s := xs[0] + Comma + rest;
      assert s[..|xs[0]|] == xs[0];
      assert s[|xs[0]| + 2..] == rest;
      SplitJoinComma(xs[1..]);
      assert xs == [xs[0]] + xs[1..];
    }
  }

  // ---------------------------------------------------------------------------
  // Integers and their decimal text

  function DigitChar(d: nat): char
    requires d < 10
  {
    ('0' as int + d) as char
  }

  function DigitValue(c: char): nat
    requires IsDigit(c)
  {
    c as int - '0' as int
  }

  predicate AllDigits(s: string) {
    forall i :: 0 <= i < |s| ==> IsDigit(s[i])
  }

  /** The end of the maximal run of decimal digits starting at `i`. */
  function ScanDigits(s: string, i: nat): (j: nat)
    requires i <= |s|
    decreases |s| - i
    ensures i <= j <= |s|
    ensures forall k :: i <= k < j ==> IsDigit(s[k])
    ensures j < |s| ==> !IsDigit(s[j])
  {
    if i < |s| && IsDigit(s[i]) then ScanDigits(s, i + 1) else i
  }

  /** A digit run from `i` to `j` followed by a non-digit (or the end) is what ScanDigits finds. */
  lemma {:induction false} ScanFrom(s: string, i: nat, j: nat)
    requires i <= j <= |s|
    requires forall k :: i <= k < j ==> IsDigit(s[k])
    requires j < |s| ==> !IsDigit(s[j])
    ensures ScanDigits(s, i) == j
    decreases j - i
  {
    if i < j {
      ScanFrom(s, i + 1, j);
    }
  }

  /** `str(n)` for a natural number. */
  function NatToString(n: nat): (r: string)
    ensures |r| >= 1 && AllDigits(r)
    ensures |r| > 1 ==> r[0] != '0'
  {
    if n < 10 then [DigitChar(n)] else NatToString(n / 10) + [DigitChar(n % 10)]
  }

  /** The value of a string of decimal digits (`int(s)` on such a string). */
  function DigitsValue(s: string): nat
    requires AllDigits(s)
  {
    if |s| == 0 then 0 else DigitsValue(s[..|s| - 1]) * 10 + DigitValue(s[|s| - 1])
  }

  lemma {:induction false} DigitsOfNat(n: nat)
    ensures DigitsValue(NatToString(n)) == n
  {
    var r := NatToString(n);
    if n >= 10 {
      DigitsOfNat(n / 10);
      assert r[..|r| - 1] == NatToString(n / 10);
    }
  }

  /** `str(i)` for any integer. */
  function IntToString(i: int): (r: string)
    ensures |r| >= 1
  {
    if i < 0 then "-" + NatToString(-i) else NatToString(i)
  }

  /** `int(s)` for a string holding an optionally signed run of decimal digits,
      surrounded by optional whitespace; anything else raises ValueError. */
  function ParseInt(s: string): (r: Option<int>)
    ensures r.Some? ==> |Strip(s)| >= 1
  {
    var t := Strip(s);
    if |t| >= 2 && (t[0] == '-' || t[0] == '+') && AllDigits(t[1..]) then
      var v: int := DigitsValue(t[1..]);
      Some(if t[0] == '-' then -v else v)
    else if |t| >= 1 && AllDigits(t) then Some(DigitsValue(t))
    else None
  }

  /** `int(str(i)) == i`. */
  lemma IntStringRoundTrip(i: int)
    ensures ParseInt(IntToString(i)) == Some(i)
  {
    var s := IntToString(i);
    var d := NatToString(if i < 0 then -i else i);
    assert !IsSpace(s[0]) && !IsSpace(s[|s| - 1]);
    LStripNoEdge(s);
    RStripNoEdge(s);
    DigitsOfNat(if i < 0 then -i else i);
    if i < 0 {
      assert s[1..] == d;
    }
  }

  // ---------------------------------------------------------------------------
  // String comparison (Python `<` on str)

  predicate LexLess(a: string, b: string)
    decreases |a|
  {
    if |a| == 0 then |b| > 0
    else if |b| == 0 then false
    else if a[0] != b[0] then a[0] < b[0]
    else LexLess(a[1..], b[1..])
  }

  lemma {:induction false} LexLessIrreflexive(a: string)
    ensures !LexLess(a, a)
  {
    if |a| > 0 {
      LexLessIrreflexive(a[1..]);
    }
  }

  lemma {:induction false} LexLessTrans(a: string, b: string, c: string)
    requires LexLess(a, b) && LexLess(b, c)
    ensures LexLess(a, c)
  {
    if |a| > 0 && |b| > 0 && |c| > 0 && a[0] == b[0] && b[0] == c[0] {
      LexLessTrans(a[1..], b[1..], c[1..]);
    }
  }

  lemma {:induction false} LexLessTotal(a: string, b: string)
    ensures a == b || LexLess(a, b) || LexLess(b, a)
  {
    if |a| > 0 && |b| > 0 && a[0] == b[0] {
      LexLessTotal(a[1..], b[1..]);
      if a[1..] == b[1..] {
        assert a == [a[0]] + a[1..] && b == [b[0]] + b[1..];
      }
    }
  }

  lemma {:induction false} LexLessAsym(a: string, b: string)
    requires LexLess(a, b)
    ensures !LexLess(b, a)
  {
    if |a| > 0 && |b| > 0 && a[0] == b[0] {
      LexLessAsym(a[1..], b[1..]);
    }
  }
}
