/** The frame operations the two league-leader scripts share: `df[df[c] >= v]`, and a
    rank column computed from a stats column and written back into the frame. A frame of
    API rows is kept here as a list of records keyed by column name. */
module RankedFrames {
  import opened Wrappers
  import Text
  import opened Frames
  import opened Ranks

  /** `pd.DataFrame(rowSet, columns=headers)`: the column names in order and one record per row. */
  datatype Table = Table(columns: seq<string>, rows: seq<map<string, Cell>>)

  /** `row[c]`, Blank when the record has no such column. */
  function At(row: map<string, Cell>, c: string): Cell {
    if c in row then row[c] else Blank
  }

  /** `df[c]` as numbers: a missing or text cell is None. */
  function NumColumn(t: Table, c: string): (xs: seq<Option<real>>)
    ensures |xs| == |t.rows|
  {
    seq(|t.rows|, i requires 0 <= i < |t.rows| => NumKey(At(t.rows[i], c)))
  }

  /** A column of ranks as cells: an unranked (missing) value stays missing. */
  function AsCells(rs: seq<Option<real>>): (cells: seq<Cell>)
    ensures |cells| == |rs|
    ensures forall i :: 0 <= i < |rs| ==> NumKey(cells[i]) == rs[i]
  {
    seq(|rs|, i requires 0 <= i < |rs| => if rs[i].Some? then NumCell(rs[i].value) else Blank)
  }

  /** `cells[i]`, Blank past the end. */
  function CellAt(cells: seq<Cell>, i: nat): Cell {
    if i < |cells| then cells[i] else Blank
  }

  /** `df[name] = cells`: overwrite the column, or append it at the end when it is new. */
  function SetColumn(t: Table, name: string, cells: seq<Cell>): (u: Table)
    ensures |u.rows| == |t.rows|
    ensures forall c :: c in u.columns <==> c in t.columns || c == name
    ensures forall i :: 0 <= i < |t.rows| ==> u.rows[i] == t.rows[i][name := CellAt(cells, i)]
  {
    Table(if name in t.columns then t.columns else t.columns + [name],
          seq(|t.rows|, i requires 0 <= i < |t.rows| => t.rows[i][name := CellAt(cells, i)]))
  }

  /** `row[c] >= v`: false for a missing or text cell. */
  predicate AtLeast(row: map<string, Cell>, c: string, v: real) {
    var x := NumKey(At(row, c));
    x.Some? && x.value >= v
  }

  function KeepRows(rows: seq<map<string, Cell>>, c: string, v: real): (out: seq<map<string, Cell>>)
    ensures |out| <= |rows|
    ensures forall r :: r in out <==> r in rows && AtLeast(r, c, v)
  {
    if |rows| == 0 then []
    else
      var n := |rows| - 1;
      assert forall r :: r in rows <==> r in rows[..n] || r == rows[n];
      KeepRows(rows[..n], c, v) + (if AtLeast(rows[n], c, v) then [rows[n]] else [])
  }

  /** `df[df[c] >= v]`: the same columns and, in order, the rows whose `c` is at least `v`. */
  function KeepAtLeast(t: Table, c: string, v: real): (u: Table)
    ensures u.columns == t.columns && |u.rows| <= |t.rows|
    ensures forall r :: r in u.rows <==> r in t.rows && AtLeast(r, c, v)
  {
    Table(t.columns, KeepRows(t.rows, c, v))
  }

  /** The mask keeps order and repetitions: two stretches of rows are filtered separately,
      and a single row is kept exactly when its `c` is at least `v`. */
  lemma {:induction false} KeepRowsAppend(a: seq<map<string, Cell>>, b: seq<map<string, Cell>>, c: string, v: real)
    ensures KeepRows(a + b, c, v) == KeepRows(a, c, v) + KeepRows(b, c, v)
    ensures |b| == 1 ==> KeepRows(b, c, v) == (if AtLeast(b[0], c, v) then b else [])
    decreases |b|
  {
    assert |b| == 1 ==> KeepRows(b, c, v) == (if AtLeast(b[0], c, v) then b else []) by {
      if |b| == 1 {
        assert b[..0] == [];
      }
    }
    if |b| == 0 {
      assert a + b == a;
    } else {
      var n := |b| - 1;
      var last := if AtLeast(b[n], c, v) then [b[n]] else [];
      assert KeepRows(a + b, c, v) == KeepRows(a + b[..n], c, v) + last by {
        assert (a + b)[..|a + b| - 1] == a + b[..n];
        assert (a + b)[|a + b| - 1] == b[n];
      }
      KeepRowsAppend(a, b[..n], c, v);
      Lists.Regroup(KeepRows(a, c, v), KeepRows(b[..n], c, v), last);
    }
  }

  /** `df[df[c] >= v]` on a table whose rows are two stretches: the kept rows of the
      first followed by those of the second. */
  lemma KeepAtLeastAppend(cols: seq<string>, a: seq<map<string, Cell>>, b: seq<map<string, Cell>>, c: string, v: real)
    ensures KeepAtLeast(Table(cols, a + b), c, v).rows
      == KeepAtLeast(Table(cols, a), c, v).rows + KeepAtLeast(Table(cols, b), c, v).rows
  {
    KeepRowsAppend(a, b, c, v);
  }

  /** A ranking of a column: a function from the column's values to their ranks. */
  type Ranking = seq<Option<real>> -> seq<Option<real>>

  /** `df[c].rank(...)` as cells. */
  function RankCells(t: Table, c: string, rank: Ranking): seq<Cell> {
    AsCells(rank(NumColumn(t, c)))
  }

  // ---------------------------------------------------------------------------
  // `df[field + "_RANK"] = df[field].rank(method='min', ascending=False)` per field
  // ---------------------------------------------------------------------------

  /** `c` is the rank column of one of `fields`. */
  predicate IsRankName(c: string, fields: seq<string>) {
    exists k :: 0 <= k < |fields| && c == fields[k] + "_RANK"
  }

  /** The frame after each field, in turn, gets the column `field + "_RANK"` holding its
      ranks; KeyError at the first field the frame does not have. */
  function WithRankColumns(f: Table, fields: seq<string>, rank: Ranking): (r: Result<Table>)
    ensures r.Ok? ==> |r.value.rows| == |f.rows|
    ensures r.Err? ==> r.error == KeyError
    ensures r.Ok? ==> forall c :: c in r.value.columns <==> c in f.columns || IsRankName(c, fields)
  {
    if |fields| == 0 then Ok(f)
    else
      var n := |fields| - 1;
      match WithRankColumns(f, fields[..n], rank)
      case Err(e) => Err(e)
      case Ok(g) =>
        if fields[n] in g.columns then
          var h := SetColumn(g, fields[n] + "_RANK", RankCells(g, fields[n], rank));
          assert forall c :: IsRankName(c, fields) <==> IsRankName(c, fields[..n]) || c == fields[n] + "_RANK" by {
            forall c | IsRankName(c, fields[..n])
              ensures IsRankName(c, fields)
            {
              var k :| 0 <= k < n && c == fields[..n][k] + "_RANK";
              assert c == fields[k] + "_RANK";
            }
          }
          Ok(h)
        else Err(KeyError)
  }

  /** The play-type ranking: `df[field + "_RANK"] = df[field].rank(method='min', ascending=False)`
      for each field. */
  function WithMinRanks(f: Table, fields: seq<string>): (r: Result<Table>)
    ensures r.Ok? ==> |r.value.rows| == |f.rows|
    ensures r.Err? ==> r.error == KeyError
  {
    WithRankColumns(f, fields, MinRankDesc)
  }

  /** No field name ends in "_RANK", so no rank column written overwrites a field. */
  predicate NoRankFields(fields: seq<string>) {
    forall k :: 0 <= k < |fields| ==> !Text.EndsWith(fields[k], "_RANK")
  }

  lemma NotRankName(c: string, fields: seq<string>)
    requires !Text.EndsWith(c, "_RANK")
    ensures !IsRankName(c, fields)
  {
    forall k | 0 <= k < |fields|
      ensures c != fields[k] + "_RANK"
    {
      var x := fields[k] + "_RANK";
      assert x[|x| - 5..] == "_RANK";
    }
  }

  lemma SuffixCancel(a: string, b: string, s: string)
    requires a + s == b + s
    ensures a == b
  {
    assert a == (a + s)[..|a|];
    assert b == (b + s)[..|b|];
  }

  /** Writing rank columns fails exactly when a field is not a column, and leaves every
      column that is not a rank column as it was. */
  lemma {:induction false} RankColumnsKeep(f: Table, fields: seq<string>, rank: Ranking)
    requires NoRankFields(fields)
    ensures WithRankColumns(f, fields, rank).Ok? <==> forall k :: 0 <= k < |fields| ==> fields[k] in f.columns
    ensures WithRankColumns(f, fields, rank).Ok? ==>
      forall i, c :: 0 <= i < |f.rows| && !IsRankName(c, fields) ==>
        At(WithRankColumns(f, fields, rank).value.rows[i], c) == At(f.rows[i], c)
  {
    RankColumnsOk(f, fields, rank);
    if |fields| > 0 && WithRankColumns(f, fields, rank).Ok? {
      var n := |fields| - 1;
      assert forall k :: 0 <= k < n ==> fields[..n][k] == fields[k];
      RankColumnsKeep(f, fields[..n], rank);
      var prev := WithRankColumns(f, fields[..n], rank);
      RankColumnKeepStep(f, prev.value, fields, rank);
    }
  }

  /** Writing rank columns fails exactly when a field is not a column. */
  lemma {:induction false} RankColumnsOk(f: Table, fields: seq<string>, rank: Ranking)
    requires NoRankFields(fields)
    ensures WithRankColumns(f, fields, rank).Ok? <==> forall k :: 0 <= k < |fields| ==> fields[k] in f.columns
  {
    if |fields| > 0 {
      var n := |fields| - 1;
      assert forall k :: 0 <= k < n ==> fields[..n][k] == fields[k];
      RankColumnsOk(f, fields[..n], rank);
      var prev := WithRankColumns(f, fields[..n], rank);
      if prev.Ok? {
        FieldSurvives(f, fields[..n], rank, fields[n]);
        assert WithRankColumns(f, fields, rank).Ok? <==> fields[n] in prev.value.columns;
      } else {
        assert !WithRankColumns(f, fields, rank).Ok?;
      }
    }
  }

  /** A field that is not itself a rank name is a column after rank columns are written
      exactly when it was one before. */
  lemma FieldSurvives(f: Table, fields: seq<string>, rank: Ranking, x: string)
    requires WithRankColumns(f, fields, rank).Ok? && !Text.EndsWith(x, "_RANK")
    ensures x in WithRankColumns(f, fields, rank).value.columns <==> x in f.columns
  {
    NotRankName(x, fields);
  }

  /** One step of `RankColumnsKeep`: writing the last field's rank column changes no
      column that is not a rank column. */
  lemma RankColumnKeepStep(f: Table, g: Table, fields: seq<string>, rank: Ranking)
    requires |fields| > 0 && WithRankColumns(f, fields[..|fields| - 1], rank) == Ok(g)
    requires fields[|fields| - 1] in g.columns
    requires forall i, c :: 0 <= i < |f.rows| && !IsRankName(c, fields[..|fields| - 1]) ==>
      At(g.rows[i], c) == At(f.rows[i], c)
    ensures WithRankColumns(f, fields, rank).Ok?
    ensures forall i, c :: 0 <= i < |f.rows| && !IsRankName(c, fields) ==>
      At(WithRankColumns(f, fields, rank).value.rows[i], c) == At(f.rows[i], c)
  {
    var n := |fields| - 1;
    var name := fields[n] + "_RANK";
    var h := SetColumn(g, name, RankCells(g, fields[n], rank));
    assert WithRankColumns(f, fields, rank) == Ok(h);
    forall i, c | 0 <= i < |f.rows| && !IsRankName(c, fields)
      ensures At(h.rows[i], c) == At(f.rows[i], c)
    {
      assert c != name;
      forall k | 0 <= k < n
        ensures c != fields[..n][k] + "_RANK"
      {
        assert fields[..n][k] == fields[k];
      }
    }
  }

  /** The rank column of each field holds the ranks of that field's values in the frame
      that was passed in. */
  lemma {:induction false} RankColumnsHold(f: Table, fields: seq<string>, rank: Ranking)
    requires NoRankFields(fields)
    requires WithRankColumns(f, fields, rank).Ok?
    ensures forall k, i :: 0 <= k < |fields| && 0 <= i < |f.rows| ==>
      At(WithRankColumns(f, fields, rank).value.rows[i], fields[k] + "_RANK") == CellAt(RankCells(f, fields[k], rank), i)
  {
    if |fields| > 0 {
      var n := |fields| - 1;
      assert forall k :: 0 <= k < n ==> fields[..n][k] == fields[k];
      var g := WithRankColumns(f, fields[..n], rank).value;
      RankColumnsHold(f, fields[..n], rank);
      RankColumnsKeep(f, fields[..n], rank);
      NotRankName(fields[n], fields[..n]);
      assert NumColumn(g, fields[n]) == NumColumn(f, fields[n]);
      var name := fields[n] + "_RANK";
      var cells := RankCells(g, fields[n], rank);
      assert cells == RankCells(f, fields[n], rank);
      var h := WithRankColumns(f, fields, rank).value;
      assert h == SetColumn(g, name, cells);
      forall k, i | 0 <= k < |fields| && 0 <= i < |f.rows|
        ensures At(h.rows[i], fields[k] + "_RANK") == CellAt(RankCells(f, fields[k], rank), i)
      {
        assert h.rows[i] == g.rows[i][name := CellAt(cells, i)];
        if fields[k] + "_RANK" == name {
          SuffixCancel(fields[k], fields[n], "_RANK");
        } else {
          assert k != n;
          assert fields[k] == fields[..n][k];
        }
      }
    }
  }

  // ---------------------------------------------------------------------------
  // `df[col] = df[col].rank(method='average')` per listed column
  // ---------------------------------------------------------------------------

  /** The frame after each listed column, in turn, is replaced by its ranks; KeyError at
      the first column the frame does not have. */
  function WithRanksInPlace(f: Table, cols: seq<string>, rank: Ranking): (r: Result<Table>)
    ensures r.Ok? ==> |r.value.rows| == |f.rows|
    ensures r.Ok? ==> forall c :: c in r.value.columns <==> c in f.columns
    ensures r.Err? ==> r.error == KeyError
  {
    if |cols| == 0 then Ok(f)
    else
      var n := |cols| - 1;
      match WithRanksInPlace(f, cols[..n], rank)
      case Err(e) => Err(e)
      case Ok(g) =>
        if cols[n] in g.columns then Ok(SetColumn(g, cols[n], RankCells(g, cols[n], rank)))
        else Err(KeyError)
  }

  /** The regular-stats ranking: `df[col] = df[col].rank(method='average')` for each column. */
  function WithAverageRanks(f: Table, cols: seq<string>): (r: Result<Table>)
    ensures r.Ok? ==> |r.value.rows| == |f.rows|
    ensures r.Err? ==> r.error == KeyError
  {
    WithRanksInPlace(f, cols, AverageRank)
  }

  /** Ranking in place fails exactly when a listed column is missing. */
  lemma {:induction false} RanksInPlaceOk(f: Table, cols: seq<string>, rank: Ranking)
    ensures WithRanksInPlace(f, cols, rank).Ok? <==> forall k :: 0 <= k < |cols| ==> cols[k] in f.columns
  {
    if |cols| > 0 {
      var n := |cols| - 1;
      assert forall k :: 0 <= k < n ==> cols[..n][k] == cols[k];
      RanksInPlaceOk(f, cols[..n], rank);
    }
  }

  /** With distinct column names, each listed column ends up holding the ranks of its
      original values, and every other column is unchanged. */
  lemma {:induction false} RanksInPlaceHold(f: Table, cols: seq<string>, rank: Ranking)
    requires Lists.Distinct(cols)
    requires WithRanksInPlace(f, cols, rank).Ok?
    ensures forall k, i :: 0 <= k < |cols| && 0 <= i < |f.rows| ==>
      At(WithRanksInPlace(f, cols, rank).value.rows[i], cols[k]) == CellAt(RankCells(f, cols[k], rank), i)
    ensures forall i, c :: 0 <= i < |f.rows| && c !in cols ==>
      At(WithRanksInPlace(f, cols, rank).value.rows[i], c) == At(f.rows[i], c)
  {
    if |cols| > 0 {
      var n := |cols| - 1;
      assert forall k :: 0 <= k < n ==> cols[..n][k] == cols[k];
      assert Lists.Distinct(cols[..n]) && cols[n] !in cols[..n] by {
        DistinctInit(cols);
      }
      RanksInPlaceHold(f, cols[..n], rank);
      var g := WithRanksInPlace(f, cols[..n], rank).value;
      assert WithRanksInPlace(f, cols, rank) == Ok(SetColumn(g, cols[n], RankCells(g, cols[n], rank)));
      assert cols == cols[..n] + [cols[n]];
      RankedColumnStep(f, g, cols[..n], cols[n], rank);
    }
  }

  /** One step of `RanksInPlaceHold`: ranking column `x` in place in a frame `g` whose
      columns `pre` already hold their ranks in `f` and whose other columns are `f`'s. */
  lemma RankedColumnStep(f: Table, g: Table, pre: seq<string>, x: string, rank: Ranking)
    requires x !in pre && |g.rows| == |f.rows|
    requires forall k, i :: 0 <= k < |pre| && 0 <= i < |f.rows| ==>
      At(g.rows[i], pre[k]) == CellAt(RankCells(f, pre[k], rank), i)
    requires forall i, c :: 0 <= i < |f.rows| && c !in pre ==> At(g.rows[i], c) == At(f.rows[i], c)
    ensures var h := SetColumn(g, x, RankCells(g, x, rank));
      forall k, i :: 0 <= k < |pre + [x]| && 0 <= i < |f.rows| ==>
        At(h.rows[i], (pre + [x])[k]) == CellAt(RankCells(f, (pre + [x])[k], rank), i)
    ensures var h := SetColumn(g, x, RankCells(g, x, rank));
      forall i, c :: 0 <= i < |f.rows| && c !in pre + [x] ==> At(h.rows[i], c) == At(f.rows[i], c)
  {
    assert NumColumn(g, x) == NumColumn(f, x);
    var cells := RankCells(g, x, rank);
    assert cells == RankCells(f, x, rank);
    var h := SetColumn(g, x, cells);
    var cols := pre + [x];
    forall k, i | 0 <= k < |cols| && 0 <= i < |f.rows|
      ensures At(h.rows[i], cols[k]) == CellAt(RankCells(f, cols[k], rank), i)
    {
      assert h.rows[i] == g.rows[i][x := CellAt(cells, i)];
      if k < |pre| {
        assert cols[k] == pre[k] && cols[k] != x;
      }
    }
    forall i, c | 0 <= i < |f.rows| && c !in cols
      ensures At(h.rows[i], c) == At(f.rows[i], c)
    {
      assert h.rows[i] == g.rows[i][x := CellAt(cells, i)];
      assert c !in pre;
    }
  }

  lemma {:induction false} DistinctInit<T>(xs: seq<T>)
    requires |xs| > 0 && Lists.Distinct(xs)
    ensures Lists.Distinct(xs[..|xs| - 1]) && xs[|xs| - 1] !in xs[..|xs| - 1]
  {
    if |xs| > 1 {
      DistinctInit(xs[1..]);
      assert xs[1..][..|xs| - 2] == xs[1..|xs| - 1];
      assert xs[..|xs| - 1] == [xs[0]] + xs[1..|xs| - 1];
      assert xs[..|xs| - 1][1..] == xs[1..|xs| - 1];
    }
  }
}
