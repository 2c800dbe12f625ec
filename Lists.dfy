/** Python list operations used on lineups and queues. */
module Lists {

  /** `list.remove(x)`: drop the first occurrence. */
  function Remove<T(==)>(xs: seq<T>, x: T): (ys: seq<T>)
    requires x in xs
    ensures |ys| == |xs| - 1
    ensures forall y :: y in ys ==> y in xs
    ensures forall y :: y in xs && y != x ==> y in ys
  {
    if xs[0] == x then xs[1..] else [xs[0]] + Remove(xs[1..], x)
  }

  /** No element occurs twice. */
  predicate Distinct<T(==)>(xs: seq<T>) {
    |xs| == 0 || (xs[0] !in xs[1..] && Distinct(xs[1..]))
  }

  lemma {:induction false} RemoveDistinct<T>(xs: seq<T>, x: T)
    requires x in xs && Distinct(xs)
    ensures Distinct(Remove(xs, x))
  {
    if xs[0] != x {
      RemoveDistinct(xs[1..], x);
      assert Remove(xs, x)[1..] == Remove(xs[1..], x);
    }
  }

  lemma {:induction false} AppendDistinct<T>(xs: seq<T>, x: T)
    requires x !in xs && Distinct(xs)
    ensures Distinct(xs + [x])
    decreases |xs|
  {
    if |xs| > 0 {
      AppendDistinct(xs[1..], x);
      assert (xs + [x])[1..] == xs[1..] + [x];
    }
  }

  /** Keep, in order, the elements other than `a` and `b`
      (`[e for e in xs if e != a and e != b]`). */
  function Without<T(==)>(xs: seq<T>, a: T, b: T): (ys: seq<T>)
    ensures |ys| <= |xs|
    ensures forall y :: y in ys ==> y in xs && y != a && y != b
    ensures forall y :: y in xs && y != a && y != b ==> y in ys
  {
    if |xs| == 0 then []
    else (if xs[0] != a && xs[0] != b then [xs[0]] else []) + Without(xs[1..], a, b)
  }

  /** Keep the first occurrence of each element, in order (`Series.unique()`). */
  function Unique<T(==)>(xs: seq<T>): (ys: seq<T>)
    ensures Distinct(ys)
    ensures forall y :: y in ys ==> y in xs
    ensures forall y :: y in xs ==> y in ys
    decreases |xs|
  {
    if |xs| == 0 then []
    else
      var rest := Unique(xs[..|xs| - 1]);
      if xs[|xs| - 1] in rest then rest
      else
        AppendDistinct(rest, xs[|xs| - 1]);
        rest + [xs[|xs| - 1]]
  }

  /** `Without` keeps order and repetitions: it filters two stretches separately, and a
      single element is kept exactly when it is neither `a` nor `b`. */
  lemma {:induction false} WithoutAppend<T>(xs: seq<T>, ys: seq<T>, a: T, b: T)
    ensures Without(xs + ys, a, b) == Without(xs, a, b) + Without(ys, a, b)
    ensures |xs| == 1 ==> Without(xs, a, b) == (if xs[0] != a && xs[0] != b then xs else [])
  {
    if |xs| == 0 {
      assert xs + ys == ys;
    } else {
      assert (xs + ys)[0] == xs[0] && (xs + ys)[1..] == xs[1..] + ys;
      WithoutAppend(xs[1..], ys, a, b);
    }
  }

  /** Nothing to drop leaves the sequence as it is. */
  lemma {:induction false} WithoutAbsent<T>(xs: seq<T>, a: T, b: T)
    requires a !in xs && b !in xs
    ensures Without(xs, a, b) == xs
  {
    if |xs| > 0 {
      WithoutAbsent(xs[1..], a, b);
    }
  }

  /** Elements already seen add nothing: only first occurrences are kept. */
  lemma {:induction false} UniqueAppendSeen<T>(xs: seq<T>, ys: seq<T>)
    requires forall y :: y in ys ==> y in xs
    ensures Unique(xs + ys) == Unique(xs)
    decreases |ys|
  {
    if |ys| == 0 {
      assert xs + ys == xs;
    } else {
      var n := |ys| - 1;
      assert (xs + ys)[..|xs + ys| - 1] == xs + ys[..n];
      assert (xs + ys)[|xs + ys| - 1] == ys[n];
      UniqueAppendSeen(xs, ys[..n]);
      assert ys[n] in ys;
      assert ys[n] in Unique(xs);
    }
  }

  /** Two stretches with no element in common: the first occurrences of the first
      followed by those of the second. */
  lemma {:induction false} UniqueAppendDisjoint<T>(xs: seq<T>, ys: seq<T>)
    requires forall y :: y in ys ==> y !in xs
    ensures Unique(xs + ys) == Unique(xs) + Unique(ys)
    ensures |ys| == 1 ==> Unique(ys) == ys
    decreases |ys|
  {
    if |ys| == 0 {
      assert xs + ys == xs;
    } else {
      var n := |ys| - 1;
      assert (xs + ys)[..|xs + ys| - 1] == xs + ys[..n];
      assert (xs + ys)[|xs + ys| - 1] == ys[n];
      UniqueAppendDisjoint(xs, ys[..n]);
      assert ys[n] in ys;
      assert ys[n] !in Unique(xs);
      assert (Unique(xs) + Unique(ys[..n])) + [ys[n]] == Unique(xs) + (Unique(ys[..n]) + [ys[n]]);
    }
  }

  /** Concatenation regroups freely. */
  lemma Regroup<T>(x: seq<T>, y: seq<T>, z: seq<T>)
    ensures (x + y) + z == x + (y + z)
  {
  }
}
