/** Player-name handling of hof_yby_stats.py: clean_player_name, which repairs names
    mangled by a mis-decoded 'â' and normalises their characters and spacing, and
    find_player_id, which looks a name up in the static player list in three tiers of
    decreasing strictness. */
module PlayerNames {
  import opened Wrappers
  import opened Text
  import opened Lists

  /** The character that mis-decoded punctuation leaves behind ('â', U+00E2). */
  const Mangled: char := 'â'

  // ---------------------------------------------------------------------------
  // ''.join(c for c in s if c.isalnum() or c.isspace())

  function KeepAlnumSpace(s: string): (r: string)
    ensures forall c :: c in r <==> c in s && (IsAlnum(c) || IsSpace(c))
    ensures (forall c :: c in s ==> IsAlnum(c) || IsSpace(c)) ==> r == s
  {
    if |s| == 0 then ""
    else
      assert forall c :: c in s <==> c == s[0] || c in s[1..];
      assert s == [s[0]] + s[1..];
      (if IsAlnum(s[0]) || IsSpace(s[0]) then [s[0]] else []) + KeepAlnumSpace(s[1..])
  }

  // ---------------------------------------------------------------------------
  // ' '.join(s.split())

  /** The end of the run of non-space characters starting at `i`. */
  function WordEnd(s: string, i: nat): (j: nat)
    requires i <= |s|
    decreases |s| - i
    ensures i <= j <= |s| && (j < |s| ==> IsSpace(s[j]))
    ensures forall k :: i <= k < j ==> !IsSpace(s[k])
  {
    if i == |s| || IsSpace(s[i]) then i else WordEnd(s, i + 1)
  }

  /** `s.split()`: the maximal runs of non-space characters, in order. */
  function Words(s: string): (ws: seq<string>)
    decreases |s|
    ensures forall w :: w in ws ==> IsWord(w)
  {
    if |s| == 0 then []
    else if IsSpace(s[0]) then Words(s[1..])
    else
      var j := WordEnd(s, 0);
      [s[..j]] + Words(s[j..])
  }

  /** Every character of every word comes from the split string. */
  lemma {:induction false} WordsChars(s: string, w: string, c: char)
    requires w in Words(s) && c in w
    ensures c in s
    decreases |s|
  {
    if IsSpace(s[0]) {
      WordsChars(s[1..], w, c);
      InSlice(s, 1, |s|, c);
    } else {
      var j := WordEnd(s, 0);
      if w == s[..j] {
        InSlice(s, 0, j, c);
      } else {
        WordsChars(s[j..], w, c);
        InSlice(s, j, |s|, c);
      }
    }
  }

  lemma InSlice(s: string, i: nat, j: nat, c: char)
    requires i <= j <= |s| && c in s[i..j]
    ensures c in s
  {
    var k :| 0 <= k < j - i && s[i..j][k] == c;
    assert s[i + k] == c;
  }

  predicate IsWord(w: string) {
    |w| > 0 && forall k :: 0 <= k < |w| ==> !IsSpace(w[k])
  }

  /** `' '.join(s.split())`. */
  function CollapseSpaces(s: string): string {
    Join(Words(s), " ")
  }

  /** A string in collapsed form: every whitespace character is a single ' ' with a
      non-space character on each side. */
  predicate Collapsed(r: string) {
    forall i :: 0 <= i < |r| && IsSpace(r[i]) ==>
      r[i] == ' ' && 0 < i < |r| - 1 && !IsSpace(r[i - 1]) && !IsSpace(r[i + 1])
  }

  lemma {:induction false} JoinWordsCollapsed(ws: seq<string>)
    requires forall w :: w in ws ==> IsWord(w)
    ensures Collapsed(Join(ws, " "))
    ensures |ws| > 0 ==> |Join(ws, " ")| > 0 && !IsSpace(Join(ws, " ")[0])
  {
    if |ws| > 1 {
      assert ws[0] in ws;
      assert forall w :: w in ws[1..] ==> w in ws;
      JoinWordsCollapsed(ws[1..]);
      var x, rest := ws[0], Join(ws[1..], " ");
      var r := x + " " + rest;
      forall i | 0 <= i < |r| && IsSpace(r[i])
        ensures r[i] == ' ' && 0 < i < |r| - 1 && !IsSpace(r[i - 1]) && !IsSpace(r[i + 1])
      {
        if i > |x| {
          assert r[i] == rest[i - |x| - 1];
          if i - |x| - 1 > 0 {
            assert r[i - 1] == rest[i - |x| - 2];
          }
          assert r[i + 1] == rest[i - |x|];
        } else if i == |x| {
          assert r[i - 1] == x[|x| - 1];
          assert r[i + 1] == rest[0];
        }
      }
      assert r[0] == x[0];
    } else if |ws| == 1 {
      assert ws[0] in ws;
    }
  }

  /** Splitting space-joined words gives the words back. */
  lemma {:induction false} WordsOfJoin(ws: seq<string>)
    requires forall w :: w in ws ==> IsWord(w)
    ensures Words(Join(ws, " ")) == ws
  {
    if |ws| == 1 {
      var x := ws[0];
      assert x in ws;
      var j := WordEnd(x, 0);
      assert j == |x|;
      assert x[..j] == x && x[j..] == [];
    } else if |ws| > 1 {
      assert ws[0] in ws;
      assert forall w :: w in ws[1..] ==> w in ws;
      var rest := Join(ws[1..], " ");
      WordsCons(ws[0], rest);
      WordsSpace(rest);
      WordsOfJoin(ws[1..]);
      assert ws == [ws[0]] + ws[1..];
    }
  }

  /** A word followed by a space splits off first. */
  lemma WordsCons(x: string, rest: string)
    requires IsWord(x)
    ensures Words(x + " " + rest) == [x] + Words(" " + rest)
  {
    var s := x + " " + rest;
    var j := WordEnd(s, 0);
    assert s[|x|] == ' ';
    assert forall k :: 0 <= k < |x| ==> s[k] == x[k];
    assert j == |x|;
    assert s[..j] == x;
    assert s[j..] == " " + rest;
  }

  /** A leading space does not change the split. */
  lemma WordsSpace(rest: string)
    ensures Words(" " + rest) == Words(rest)
  {
    assert (" " + rest)[1..] == rest;
  }

  lemma {:induction false} JoinChars(ws: seq<string>, sep: string, c: char)
    requires c in Join(ws, sep)
    ensures c in sep || exists w :: w in ws && c in w
  {
    if |ws| > 1 {
      var x, rest := ws[0], Join(ws[1..], sep);
      assert Join(ws, sep) == x + sep + rest;
      assert x in ws;
      if c !in x && c !in sep {
        assert c in rest;
        JoinChars(ws[1..], sep, c);
        var w :| w in ws[1..] && c in w;
        assert w in ws;
      }
    } else if |ws| == 1 {
      assert ws[0] in ws;
    }
  }

  // ---------------------------------------------------------------------------
  // Removing duplicate chunks around 'â'

  /** The chunks kept by the seen-set loop: non-empty, first occurrences, in order. */
  function KeptChunks(parts: seq<string>): (kept: seq<string>)
    ensures Distinct(kept)
    ensures forall p :: p in kept <==> p in parts && p != ""
  {
    if |parts| == 0 then []
    else
      var prev := KeptChunks(parts[..|parts| - 1]);
      var last := parts[|parts| - 1];
      assert forall p :: p in parts <==> p in parts[..|parts| - 1] || p == last;
      if last != "" && last !in prev then
        AppendDistinct(prev, last);
        prev + [last]
      else prev
  }

  /** The loop over the 'â'-separated chunks with its `seen` set. */
  method DedupChunks(parts: seq<string>) returns (kept: seq<string>)
    ensures kept == KeptChunks(parts)
  {
    var seen: set<string> := {};
    kept := [];
    var i := 0;
    while i < |parts|
      invariant 0 <= i <= |parts|
      invariant kept == KeptChunks(parts[..i])
      invariant forall p :: p in seen <==> p in kept
    {
      assert parts[..i + 1][..i] == parts[..i];
      var part := parts[i];
      if part != "" && part !in seen {
        seen := seen + {part};
        kept := kept + [part];
      }
      i := i + 1;
    }
    assert parts[..|parts|] == parts;
  }

  /** The first step of clean_player_name: when 'â' occurs, the name becomes its distinct
      non-empty 'â'-separated chunks joined by single spaces. */
  function Unmangle(name: string): string {
    if Mangled in name then Join(KeptChunks(SplitOn(name, [Mangled])), " ") else name
  }

  /** clean_player_name. */
  function CleanName(name: string): string {
    CollapseSpaces(KeepAlnumSpace(Unmangle(name)))
  }

  method CleanPlayerName(name: string) returns (r: string)
    ensures r == CleanName(name)
  {
    var s := name;
    if Mangled in s {
      var parts := SplitOn(s, [Mangled]);
      var kept := DedupChunks(parts);
      s := Join(kept, " ");
    }
    s := KeepAlnumSpace(s);
    r := CollapseSpaces(s);
  }

  /** No chunk of a split on a single character contains that character. */
  lemma {:induction false} SplitOnCharChunks(s: string, c: char)
    ensures forall p :: p in SplitOn(s, [c]) ==> c !in p
    decreases |s|
  {
    match Find(s, [c])
    case None =>
      forall j | 0 <= j < |s| ensures s[j] != c {
        assert !OccursAt(s, [c], j);
        assert s[j..j + 1] == [s[j]];
      }
    case Some(k) =>
      forall j | 0 <= j < k ensures s[j] != c {
        assert !OccursAt(s, [c], j);
        assert s[j..j + 1] == [s[j]];
      }
      SplitOnCharChunks(s[k + 1..], c);
      assert SplitOn(s, [c]) == [s[..k]] + SplitOn(s[k + 1..], [c]);
  }

  /** After the first step no 'â' is left. */
  lemma UnmangleRemovesMangled(name: string)
    ensures Mangled !in Unmangle(name)
  {
    if Mangled in name {
      var parts := SplitOn(name, [Mangled]);
      SplitOnCharChunks(name, Mangled);
      var kept := KeptChunks(parts);
      if Mangled in Join(kept, " ") {
        JoinChars(kept, " ", Mangled);
      }
    }
  }

  /** clean_player_name's output holds only letters, digits and single spaces between
      words, with no space at either end. */
  lemma CleanNameShape(name: string)
    ensures var r := CleanName(name);
      Collapsed(r) && forall c :: c in r ==> IsAlnum(c) || c == ' '
  {
    var s := KeepAlnumSpace(Unmangle(name));
    var ws := Words(s);
    JoinWordsCollapsed(ws);
    var r := Join(ws, " ");
    forall c | c in r
      ensures IsAlnum(c) || c == ' '
    {
      JoinChars(ws, " ", c);
      if c != ' ' {
        var w :| w in ws && c in w;
        var k :| 0 <= k < |w| && w[k] == c;
        assert !IsSpace(c);
        WordsChars(s, w, c);
      }
    }
  }

  /** Cleaning a cleaned name changes nothing. */
  lemma CleanNameIdempotent(name: string)
    ensures CleanName(CleanName(name)) == CleanName(name)
  {
    var s := KeepAlnumSpace(Unmangle(name));
    var ws := Words(s);
    var r := Join(ws, " ");
    UnmangleRemovesMangled(name);
    assert Mangled !in s;
    assert Mangled !in r by {
      if Mangled in r {
        JoinChars(ws, " ", Mangled);
        var w :| w in ws && Mangled in w;
        WordsChars(s, w, Mangled);
      }
    }
    CleanNameShape(name);
    assert forall c :: c in r ==> IsAlnum(c) || IsSpace(c);
    assert KeepAlnumSpace(Unmangle(r)) == r;
    WordsOfJoin(ws);
  }

  // ---------------------------------------------------------------------------
  // find_player_id

  /** An entry of the static player list. */
  datatype Player = Player(fullName: string, id: int)

  /** The three tiers of find_player_id, strictest first. */
  datatype Tier = Exact | CleanedExact | CleanedPartial

  /** Whether a list entry's full name matches the searched name at a tier. */
  predicate MatchesAt(tier: Tier, fullName: string, name: string) {
    match tier
    case Exact => Lower(fullName) == Lower(name)
    case CleanedExact => Lower(KeepAlnumSpace(fullName)) == Lower(KeepAlnumSpace(name))
    case CleanedPartial => Contains(Lower(KeepAlnumSpace(fullName)), Lower(KeepAlnumSpace(name)))
  }

  /** The id of the first entry matching at `tier`. */
  function FirstAt(players: seq<Player>, tier: Tier, name: string): (r: Option<int>)
    ensures r.None? <==> forall p :: p in players ==> !MatchesAt(tier, p.fullName, name)
    ensures r.Some? ==>
      exists k :: 0 <= k < |players| && players[k].id == r.value && MatchesAt(tier, players[k].fullName, name)
        && forall j :: 0 <= j < k ==> !MatchesAt(tier, players[j].fullName, name)
  {
    if |players| == 0 then None
    else if MatchesAt(tier, players[0].fullName, name) then Some(players[0].id)
    else
      var r := FirstAt(players[1..], tier, name);
      assert forall p :: p in players <==> p == players[0] || p in players[1..];
      if r.Some? then
        var k :| 0 <= k < |players[1..]| && players[1..][k].id == r.value
          && MatchesAt(tier, players[1..][k].fullName, name)
          && forall j :: 0 <= j < k ==> !MatchesAt(tier, players[1..][j].fullName, name);
        assert players[k + 1] == players[1..][k];
        assert forall j :: 1 <= j < k + 1 ==> players[j] == players[1..][j - 1];
        r
      else r
  }

  /** The strictness order of the tiers. */
  function Strictness(t: Tier): nat {
    match t
    case Exact => 0
    case CleanedExact => 1
    case CleanedPartial => 2
  }

  /** find_player_id: the first exact (case-insensitive) match; failing that the first
      match on cleaned names; failing that the first entry whose cleaned name contains
      the cleaned name; else None. */
  function FindPlayerId(players: seq<Player>, name: string): (r: Option<int>)
    ensures r.None? <==> forall p, t :: p in players ==> !MatchesAt(t, p.fullName, name)
    ensures r.Some? ==> exists t :: AnswerAt(players, name, t, r.value)
  {
    var exact := FirstAt(players, Exact, name);
    if exact.Some? then
      TierAnswer(players, Exact, name);
      assert AnswerAt(players, name, Exact, exact.value);
      exact
    else
      var cleaned := FirstAt(players, CleanedExact, name);
      if cleaned.Some? then
        TierAnswer(players, CleanedExact, name);
        assert AnswerAt(players, name, CleanedExact, cleaned.value);
        cleaned
      else
        TierAnswer(players, CleanedPartial, name);
        var partial := FirstAt(players, CleanedPartial, name);
        assert partial.Some? ==> AnswerAt(players, name, CleanedPartial, partial.value);
        partial
  }

  lemma TierAnswer(players: seq<Player>, t: Tier, name: string)
    requires forall u, p :: Strictness(u) < Strictness(t) && p in players ==> !MatchesAt(u, p.fullName, name)
    ensures var r := FirstAt(players, t, name);
      r.Some? ==> AnswerAt(players, name, t, r.value)
  {
  }

  /** `id` is the answer of tier `t`: the id of the first entry matching at `t`, while
      no entry matches at any stricter tier. */
  predicate AnswerAt(players: seq<Player>, name: string, t: Tier, id: int) {
    (exists k :: 0 <= k < |players| && players[k].id == id && MatchesAt(t, players[k].fullName, name)
      && forall j :: 0 <= j < k ==> !MatchesAt(t, players[j].fullName, name))
    && forall u, p :: Strictness(u) < Strictness(t) && p in players ==> !MatchesAt(u, p.fullName, name)
  }
}
