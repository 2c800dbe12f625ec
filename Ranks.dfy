/** The two pandas ranking methods the leaderboard scripts use, on a column of optional
    numbers (None is a missing value, which pandas leaves unranked):
    `rank(method='min', ascending=False)` and `rank(method='average')`. */
module Ranks {
  import opened Wrappers

  /** How many present values are strictly greater than `v`. */
  function Greater(xs: seq<Option<real>>, v: real): (n: nat)
    ensures n <= |xs|
  {
    if |xs| == 0 then 0
    else
      var last := xs[|xs| - 1];
      Greater(xs[..|xs| - 1], v) + (if last.Some? && last.value > v then 1 else 0)
  }

  /** How many present values are strictly smaller than `v`. */
  function Less(xs: seq<Option<real>>, v: real): (n: nat)
    ensures n <= |xs|
  {
    if |xs| == 0 then 0
    else
      var last := xs[|xs| - 1];
      Less(xs[..|xs| - 1], v) + (if last.Some? && last.value < v then 1 else 0)
  }

  /** How many present values equal `v`. */
  function Equal(xs: seq<Option<real>>, v: real): (n: nat)
    ensures n <= |xs|
  {
    if |xs| == 0 then 0
    else
      var last := xs[|xs| - 1];
      Equal(xs[..|xs| - 1], v) + (if last.Some? && last.value == v then 1 else 0)
  }

  /** How many values are present. */
  function Present(xs: seq<Option<real>>): (n: nat)
    ensures n <= |xs|
  {
    if |xs| == 0 then 0
    else Present(xs[..|xs| - 1]) + (if xs[|xs| - 1].Some? then 1 else 0)
  }

  /** A column without missing values has every value present. */
  lemma {:induction false} AllPresent(xs: seq<Option<real>>)
    requires forall i :: 0 <= i < |xs| ==> xs[i].Some?
    ensures Present(xs) == |xs|
  {
    if |xs| > 0 {
      var n := |xs| - 1;
      assert forall i :: 0 <= i < n ==> xs[..n][i] == xs[i];
      AllPresent(xs[..n]);
    }
  }

  /** Every present value is above, below or equal to `v`. */
  lemma {:induction false} Trichotomy(xs: seq<Option<real>>, v: real)
    ensures Greater(xs, v) + Less(xs, v) + Equal(xs, v) == Present(xs)
  {
    if |xs| > 0 {
      Trichotomy(xs[..|xs| - 1], v);
    }
  }

  /** A present value counts itself among its equals. */
  lemma {:induction false} EqualSelf(xs: seq<Option<real>>, i: nat)
    requires i < |xs| && xs[i].Some?
    ensures Equal(xs, xs[i].value) >= 1
  {
    var n := |xs| - 1;
    if i < n {
      EqualSelf(xs[..n], i);
    }
  }

  /** Counting above a larger threshold never gives more. */
  lemma {:induction false} GreaterAntitone(xs: seq<Option<real>>, a: real, b: real)
    requires a <= b
    ensures Greater(xs, b) <= Greater(xs, a)
    ensures a < b ==> Greater(xs, b) + Equal(xs, b) <= Greater(xs, a)
  {
    if |xs| > 0 {
      GreaterAntitone(xs[..|xs| - 1], a, b);
    }
  }

  /** Counting below a larger threshold never gives fewer. */
  lemma {:induction false} LessMonotone(xs: seq<Option<real>>, a: real, b: real)
    requires a <= b
    ensures Less(xs, a) <= Less(xs, b)
    ensures a < b ==> Less(xs, a) + Equal(xs, a) <= Less(xs, b)
  {
    if |xs| > 0 {
      LessMonotone(xs[..|xs| - 1], a, b);
    }
  }

  /** `rank(method='min', ascending=False)`: a present value ranks 1 + the number of
      strictly larger values; a missing value stays missing. */
  function MinRankDesc(xs: seq<Option<real>>): (r: seq<Option<real>>)
    ensures |r| == |xs|
    ensures forall i :: 0 <= i < |xs| ==> (r[i].None? <==> xs[i].None?)
  {
    seq(|xs|, i requires 0 <= i < |xs| =>
      if xs[i].Some? then Some((1 + Greater(xs, xs[i].value)) as real) else None)
  }

  /** Competition ranking: equal values share a rank, a larger value ranks strictly
      better. */
  lemma MinRankDescProperties(xs: seq<Option<real>>, i: nat, j: nat)
    requires i < |xs| && j < |xs| && xs[i].Some? && xs[j].Some?
    ensures xs[i].value == xs[j].value ==> MinRankDesc(xs)[i] == MinRankDesc(xs)[j]
    ensures xs[i].value > xs[j].value ==> MinRankDesc(xs)[i].value < MinRankDesc(xs)[j].value
  {
    var vi, vj := xs[i].value, xs[j].value;
    var gi, gj := Greater(xs, vi), Greater(xs, vj);
    assert MinRankDesc(xs)[i] == Some((1 + gi) as real);
    assert MinRankDesc(xs)[j] == Some((1 + gj) as real);
    if vi > vj {
      assert gi < gj by {
        GreaterAntitone(xs, vj, vi);
        EqualSelf(xs, i);
      }
    }
  }

  /** Every competition rank lies in 1..(number of present values). */
  lemma MinRankDescBounds(xs: seq<Option<real>>, i: nat)
    requires i < |xs| && xs[i].Some?
    ensures 1.0 <= MinRankDesc(xs)[i].value <= Present(xs) as real
  {
    Trichotomy(xs, xs[i].value);
    EqualSelf(xs, i);
  }

  /** The largest present value ranks 1. */
  lemma MinRankDescOfLargest(xs: seq<Option<real>>, i: nat)
    requires i < |xs| && xs[i].Some?
    requires forall k :: 0 <= k < |xs| && xs[k].Some? ==> xs[k].value <= xs[i].value
    ensures MinRankDesc(xs)[i] == Some(1.0)
  {
    NoneGreater(xs, xs[i].value);
  }

  lemma {:induction false} NoneGreater(xs: seq<Option<real>>, v: real)
    requires forall k :: 0 <= k < |xs| && xs[k].Some? ==> xs[k].value <= v
    ensures Greater(xs, v) == 0
  {
    if |xs| > 0 {
      var n := |xs| - 1;
      assert forall k :: 0 <= k < n ==> xs[..n][k] == xs[k];
      NoneGreater(xs[..n], v);
    }
  }

  /** The average rank of `v` among the present values of `xs`, doubled: the tied values
      occupy ascending positions Less+1 .. Less+Equal, whose sum over two is this. */
  function TwiceAverage(xs: seq<Option<real>>, v: real): nat {
    2 * Less(xs, v) + Equal(xs, v) + 1
  }

  /** `rank(method='average')`, ascending, for the values `ys` measured against `xs`. */
  function AverageRanksOf(ys: seq<Option<real>>, xs: seq<Option<real>>): (r: seq<Option<real>>)
    ensures |r| == |ys|
    ensures forall i :: 0 <= i < |ys| ==> (r[i].None? <==> ys[i].None?)
  {
    seq(|ys|, i requires 0 <= i < |ys| =>
      if ys[i].Some? then Some(TwiceAverage(xs, ys[i].value) as real / 2.0) else None)
  }

  /** `rank(method='average')` of a column. */
  function AverageRank(xs: seq<Option<real>>): (r: seq<Option<real>>)
    ensures |r| == |xs|
    ensures forall i :: 0 <= i < |xs| ==> (r[i].None? <==> xs[i].None?)
  {
    AverageRanksOf(xs, xs)
  }

  /** Average ranking: equal values share a rank, a smaller value ranks strictly lower,
      and every rank lies between 1 and the number of present values. */
  lemma AverageRankProperties(xs: seq<Option<real>>, i: nat, j: nat)
    requires i < |xs| && j < |xs| && xs[i].Some? && xs[j].Some?
    ensures xs[i].value == xs[j].value ==> AverageRank(xs)[i] == AverageRank(xs)[j]
    ensures xs[i].value < xs[j].value ==> AverageRank(xs)[i].value < AverageRank(xs)[j].value
    ensures 1.0 <= AverageRank(xs)[i].value <= Present(xs) as real
  {
    var r := AverageRank(xs);
    var vi, vj := xs[i].value, xs[j].value;
    assert r[i] == Some(TwiceAverage(xs, vi) as real / 2.0) && r[j] == Some(TwiceAverage(xs, vj) as real / 2.0);
    if vi < vj {
      LessMonotone(xs, vi, vj);
      EqualSelf(xs, j);
    }
    EqualSelf(xs, i);
    Trichotomy(xs, vi);
  }

  /** The sum of the present values. */
  function SumPresent(rs: seq<Option<real>>): real {
    if |rs| == 0 then 0.0
    else
      var last := rs[|rs| - 1];
      SumPresent(rs[..|rs| - 1]) + (if last.Some? then last.value else 0.0)
  }

  /** The doubled average ranks of the present values of `ys` against `xs`, summed. */
  function TwiceSum(ys: seq<Option<real>>, xs: seq<Option<real>>): nat {
    if |ys| == 0 then 0
    else
      var last := ys[|ys| - 1];
      TwiceSum(ys[..|ys| - 1], xs) + (if last.Some? then TwiceAverage(xs, last.value) else 0)
  }

  lemma {:induction false} SumOfHalves(ys: seq<Option<real>>, xs: seq<Option<real>>)
    ensures SumPresent(AverageRanksOf(ys, xs)) == TwiceSum(ys, xs) as real / 2.0
  {
    if |ys| > 0 {
      var n := |ys| - 1;
      SumOfHalves(ys[..n], xs);
      assert AverageRanksOf(ys, xs)[..n] == AverageRanksOf(ys[..n], xs);
    }
  }

  /** Appending one value `e` to the reference column adds, for each present y of `ys`,
      two when e < y and one when e == y. */
  lemma {:induction false} TwiceSumExtend(ys: seq<Option<real>>, xs: seq<Option<real>>, e: Option<real>)
    ensures e.None? ==> TwiceSum(ys, xs + [e]) == TwiceSum(ys, xs)
    ensures e.Some? ==> TwiceSum(ys, xs + [e]) == TwiceSum(ys, xs) + 2 * Greater(ys, e.value) + Equal(ys, e.value)
  {
    var xe := xs + [e];
    assert xe[..|xs|] == xs;
    if |ys| > 0 {
      TwiceSumExtend(ys[..|ys| - 1], xs, e);
    }
  }

  /** The doubled average ranks of a column sum to P(P+1), P the number of present values. */
  lemma {:induction false} TwiceSumSelf(xs: seq<Option<real>>)
    ensures TwiceSum(xs, xs) == Present(xs) * (Present(xs) + 1)
  {
    if |xs| > 0 {
      var n := |xs| - 1;
      var init, e := xs[..n], xs[n];
      assert xs == init + [e];
      TwiceSumSelf(init);
      TwiceSumExtend(init, init, e);
      assert TwiceSum(xs, xs) == TwiceSum(init, xs) + (if e.Some? then TwiceAverage(xs, e.value) else 0);
      if e.Some? {
        var v := e.value;
        Trichotomy(init, v);
        assert xs[..n] == init;
        assert Less(xs, v) == Less(init, v);
        assert Equal(xs, v) == Equal(init, v) + 1;
        assert Present(xs) == Present(init) + 1;
        SquareStep(Present(init), Less(init, v), Equal(init, v), Greater(init, v));
      }
    }
  }

  /** p(p+1) plus the doubled average rank of one more value and its effect on the
      others is (p+1)(p+2). */
  lemma SquareStep(p: nat, l: nat, q: nat, g: nat)
    requires l + q + g == p
    ensures p * (p + 1) + 2 * g + q + (2 * l + (q + 1) + 1) == (p + 1) * (p + 2)
  {
  }

  /** Average ranks of a column sum to P(P+1)/2, as if each present value held a distinct
      position 1..P. */
  lemma AverageRankSum(xs: seq<Option<real>>)
    ensures SumPresent(AverageRank(xs)) == (Present(xs) * (Present(xs) + 1)) as real / 2.0
  {
    SumOfHalves(xs, xs);
    TwiceSumSelf(xs);
  }
}
