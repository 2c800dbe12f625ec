/** A pandas DataFrame reduced to what the scripts rely on: an ordered list of column
    names and rows of cells aligned with it. A missing value (NaN/None) is `Blank`. */
module Frames {
  import opened Wrappers
  import opened Lists

  datatype Cell = Blank | IntCell(i: int) | NumCell(x: real) | TextCell(t: string)

  datatype Frame = Frame(columns: seq<string>, rows: seq<seq<Cell>>)

  /** One row as a dict (a record of `to_dict('records')`, or a dict the scripts build
      before handing a list of them to `pd.DataFrame`): column name to value. */
  type Record = map<string, Cell>

  /** Column names are distinct and every row has one cell per column. */
  predicate WellFormed(f: Frame) {
    Distinct(f.columns) && forall r :: r in f.rows ==> |r| == |f.columns|
  }

  /** `df.empty`: no columns or no rows. */
  predicate IsEmpty(f: Frame) {
    |f.columns| == 0 || |f.rows| == 0
  }

  /** `pd.DataFrame()`. */
  const EmptyFrame: Frame := Frame([], [])

  /** The position of the first `x` in `xs`. */
  function IndexOf(xs: seq<string>, x: string): (r: Option<nat>)
    ensures r.Some? ==> r.value < |xs| && xs[r.value] == x
    ensures r.Some? ==> forall j :: 0 <= j < r.value ==> xs[j] != x
    ensures r.None? <==> x !in xs
  {
    if |xs| == 0 then None
    else if xs[0] == x then Some(0)
    else
      match IndexOf(xs[1..], x)
      case None => None
      case Some(k) => Some(k + 1)
  }

  /** The cell of column `c` in a row laid out by `columns`; Blank when there is no such column. */
  function Get(columns: seq<string>, row: seq<Cell>, c: string): (v: Cell)
    ensures c !in columns ==> v == Blank
  {
    match IndexOf(columns, c)
    case None => Blank
    case Some(k) => if k < |row| then row[k] else Blank
  }

  /** In a row without duplicate column names, the cell at position k is the one named columns[k]. */
  lemma GetAt(columns: seq<string>, row: seq<Cell>, k: nat)
    requires Distinct(columns) && k < |columns| == |row|
    ensures Get(columns, row, columns[k]) == row[k]
  {
    DistinctIndex(columns, k);
  }

  lemma {:induction false} DistinctIndex(xs: seq<string>, k: nat)
    requires Distinct(xs) && k < |xs|
    ensures IndexOf(xs, xs[k]) == Some(k)
  {
    if k > 0 {
      assert xs[k] in xs[1..];
      DistinctIndex(xs[1..], k - 1);
    }
  }

  /** Every row has one cell per column. */
  predicate Aligned(f: Frame) {
    forall r :: r in f.rows ==> |r| == |f.columns|
  }

  /** `df[name] = cells`: overwrite the (first) column of that name if it exists, else
      append it at the end. */
  function SetColumn(f: Frame, name: string, cells: seq<Cell>): (g: Frame)
    requires Aligned(f) && |cells| == |f.rows|
    ensures Aligned(g) && |g.rows| == |f.rows|
    ensures WellFormed(f) ==> WellFormed(g)
    ensures forall c :: c in g.columns <==> c in f.columns || c == name
    ensures forall i :: 0 <= i < |g.rows| ==> Get(g.columns, g.rows[i], name) == cells[i]
    ensures forall i, c :: 0 <= i < |g.rows| && c != name ==>
      Get(g.columns, g.rows[i], c) == Get(f.columns, f.rows[i], c)
  {
    match IndexOf(f.columns, name)
    case Some(k) => OverwriteColumn(f, k, name, cells)
    case None => AppendColumn(f, name, cells)
  }

  /** The existing column `k`, named `name`, overwritten with `cells`. */
  function OverwriteColumn(f: Frame, k: nat, name: string, cells: seq<Cell>): (g: Frame)
    requires Aligned(f) && |cells| == |f.rows| && IndexOf(f.columns, name) == Some(k)
    ensures g.columns == f.columns && Aligned(g) && |g.rows| == |f.rows|
    ensures forall i :: 0 <= i < |g.rows| ==> Get(g.columns, g.rows[i], name) == cells[i]
    ensures forall i, c :: 0 <= i < |g.rows| && c != name ==>
      Get(g.columns, g.rows[i], c) == Get(f.columns, f.rows[i], c)
  {
    var g := Frame(f.columns, seq(|f.rows|, i requires 0 <= i < |f.rows| => f.rows[i][k := cells[i]]));
    assert forall i :: 0 <= i < |g.rows| ==> g.rows[i] == f.rows[i][k := cells[i]] && f.rows[i] in f.rows;
    g
  }

  /** A new column `name` appended after the others. */
  function AppendColumn(f: Frame, name: string, cells: seq<Cell>): (g: Frame)
    requires Aligned(f) && |cells| == |f.rows| && name !in f.columns
    ensures g.columns == f.columns + [name] && Aligned(g) && |g.rows| == |f.rows|
    ensures WellFormed(f) ==> WellFormed(g)
    ensures forall i :: 0 <= i < |g.rows| ==> Get(g.columns, g.rows[i], name) == cells[i]
    ensures forall i, c :: 0 <= i < |g.rows| && c != name ==>
      Get(g.columns, g.rows[i], c) == Get(f.columns, f.rows[i], c)
  {
    AppendDistinctIf(f.columns, name);
    var g := Frame(f.columns + [name], seq(|f.rows|, i requires 0 <= i < |f.rows| => f.rows[i] + [cells[i]]));
    assert forall i :: 0 <= i < |g.rows| ==> g.rows[i] == f.rows[i] + [cells[i]] && f.rows[i] in f.rows;
    forall i, c | 0 <= i < |g.rows|
      ensures Get(g.columns, g.rows[i], c) == if c == name then cells[i] else Get(f.columns, f.rows[i], c)
    {
      AppendedGet(f.columns, f.rows[i], name, cells[i], c);
    }
    g
  }

  /** A cell appended to an aligned row under a new name. */
  lemma AppendedGet(columns: seq<string>, row: seq<Cell>, name: string, cell: Cell, c: string)
    requires |row| == |columns| && name !in columns
    ensures Get(columns + [name], row + [cell], c) == if c == name then cell else Get(columns, row, c)
  {
    AppendIndex(columns, name, c);
  }

  /** Two columns set in turn: row `i` holds the second's cell, the first's cell when the
      names differ, and its old cell under every other name. */
  lemma SetTwoColumns(f: Frame, a: string, ca: seq<Cell>, b: string, cb: seq<Cell>, i: nat, c: string)
    requires Aligned(f) && |ca| == |f.rows| && |cb| == |f.rows| && i < |f.rows|
    ensures var g := SetColumn(SetColumn(f, a, ca), b, cb);
      |g.rows| == |f.rows| &&
      Get(g.columns, g.rows[i], b) == cb[i] &&
      (a != b ==> Get(g.columns, g.rows[i], a) == ca[i]) &&
      (c != a && c != b ==> Get(g.columns, g.rows[i], c) == Get(f.columns, f.rows[i], c))
  {
  }

  lemma AppendDistinctIf(xs: seq<string>, x: string)
    requires x !in xs
    ensures Distinct(xs) ==> Distinct(xs + [x])
  {
    if Distinct(xs) {
      AppendDistinct(xs, x);
    }
  }

  /** Columns `names` set, one after the other, to `cols`. */
  function SetColumns(f: Frame, names: seq<string>, cols: seq<seq<Cell>>): (g: Frame)
    requires WellFormed(f) && Distinct(names) && |names| == |cols|
    requires forall k :: 0 <= k < |cols| ==> |cols[k]| == |f.rows|
    decreases |names|
    ensures WellFormed(g) && |g.rows| == |f.rows|
    ensures forall r, k :: 0 <= r < |g.rows| && 0 <= k < |names| ==> Get(g.columns, g.rows[r], names[k]) == cols[k][r]
    ensures forall r, c :: 0 <= r < |g.rows| && c !in names ==> Get(g.columns, g.rows[r], c) == Get(f.columns, f.rows[r], c)
  {
    if |names| == 0 then f
    else
      var h := SetColumn(f, names[0], cols[0]);
      var g := SetColumns(h, names[1..], cols[1..]);
      forall r, k | 0 <= r < |g.rows| && 0 <= k < |names|
        ensures Get(g.columns, g.rows[r], names[k]) == cols[k][r]
      {
        if k == 0 {
          assert names[0] !in names[1..];
          assert Get(h.columns, h.rows[r], names[0]) == cols[0][r];
        } else {
          assert names[k] == names[1..][k - 1] && cols[k] == cols[1..][k - 1];
        }
      }
      forall r, c | 0 <= r < |g.rows| && c !in names
        ensures Get(g.columns, g.rows[r], c) == Get(f.columns, f.rows[r], c)
      {
        assert c != names[0] && c !in names[1..];
        assert Get(g.columns, g.rows[r], c) == Get(h.columns, h.rows[r], c);
      }
      g
  }

  lemma AppendIndex(xs: seq<string>, x: string, c: string)
    requires x !in xs
    ensures IndexOf(xs + [x], c) == if c == x then Some(|xs|) else IndexOf(xs, c)
  {
    if |xs| > 0 {
      assert (xs + [x])[1..] == xs[1..] + [x];
      AppendIndex(xs[1..], x, c);
    }
  }

  /** The columns of all frames, in order, with repeats. */
  function AllColumns(fs: seq<Frame>): (cs: seq<string>)
    ensures forall c :: c in cs <==> exists f :: f in fs && c in f.columns
  {
    if |fs| == 0 then []
    else
      var rest := AllColumns(fs[..|fs| - 1]);
      assert forall f :: f in fs <==> f in fs[..|fs| - 1] || f == fs[|fs| - 1];
      rest + fs[|fs| - 1].columns
  }

  /** A row laid out again for the column list `cols`, Blank where it has no such column. */
  function Align(columns: seq<string>, row: seq<Cell>, cols: seq<string>): (out: seq<Cell>)
    ensures |out| == |cols|
  {
    seq(|cols|, k requires 0 <= k < |cols| => Get(columns, row, cols[k]))
  }

  lemma AlignGet(columns: seq<string>, row: seq<Cell>, cols: seq<string>, c: string)
    requires Distinct(cols) && forall x :: x in columns ==> x in cols
    ensures Get(cols, Align(columns, row, cols), c) == Get(columns, row, c)
  {
    match IndexOf(cols, c)
    case Some(k) =>
    case None =>
  }

  /** The rows of all frames, each laid out for `cols`. */
  function AlignAll(fs: seq<Frame>, cols: seq<string>): (rows: seq<seq<Cell>>)
    ensures |rows| == TotalRows(fs)
    ensures forall r :: r in rows ==> |r| == |cols|
  {
    if |fs| == 0 then []
    else
      var f := fs[|fs| - 1];
      AlignAll(fs[..|fs| - 1], cols) + seq(|f.rows|, i requires 0 <= i < |f.rows| => Align(f.columns, f.rows[i], cols))
  }

  function TotalRows(fs: seq<Frame>): nat {
    if |fs| == 0 then 0 else TotalRows(fs[..|fs| - 1]) + |fs[|fs| - 1].rows|
  }

  /** `pd.concat(fs, ignore_index=True)`: the union of the columns in order of first
      appearance, and every row of every frame in order, Blank where a frame lacks a column. */
  function Concat(fs: seq<Frame>): (g: Frame)
    ensures WellFormed(g)
    ensures |g.rows| == TotalRows(fs)
    ensures forall c :: c in g.columns <==> exists f :: f in fs && c in f.columns
  {
    var cols := Unique(AllColumns(fs));
    Frame(cols, AlignAll(fs, cols))
  }

  /** A concatenated row holds, under each name, the cell its source row held: so a
      column whose cells all lie in `vs` in every frame keeps them in `vs`. */
  lemma {:induction false} ConcatRows(fs: seq<Frame>, c: string, vs: set<Cell>)
    requires forall f, r :: f in fs && r in f.rows ==> Get(f.columns, r, c) in vs
    ensures forall r :: r in Concat(fs).rows ==> Get(Concat(fs).columns, r, c) in vs
  {
    var cols := Unique(AllColumns(fs));
    AlignAllGet(fs, cols, c, vs);
  }

  lemma {:induction false} AlignAllGet(fs: seq<Frame>, cols: seq<string>, c: string, vs: set<Cell>)
    requires Distinct(cols) && forall f, x :: f in fs && x in f.columns ==> x in cols
    requires forall f, r :: f in fs && r in f.rows ==> Get(f.columns, r, c) in vs
    ensures forall r :: r in AlignAll(fs, cols) ==> Get(cols, r, c) in vs
  {
    if |fs| > 0 {
      var f := fs[|fs| - 1];
      assert forall g :: g in fs[..|fs| - 1] ==> g in fs;
      AlignAllGet(fs[..|fs| - 1], cols, c, vs);
      forall i | 0 <= i < |f.rows|
        ensures Get(cols, Align(f.columns, f.rows[i], cols), c) in vs
      {
        assert f.rows[i] in f.rows;
        AlignGet(f.columns, f.rows[i], cols, c);
      }
    }
  }

  /** Every `from` in `xs` replaced by `to`. */
  function Rename(xs: seq<string>, from: string, to: string): (ys: seq<string>)
    ensures |ys| == |xs|
    ensures forall k :: 0 <= k < |xs| ==> ys[k] == if xs[k] == from then to else xs[k]
  {
    if |xs| == 0 then [] else [if xs[0] == from then to else xs[0]] + Rename(xs[1..], from, to)
  }

  lemma {:induction false} RenameDistinct(xs: seq<string>, from: string, to: string)
    requires Distinct(xs) && to !in xs
    ensures Distinct(Rename(xs, from, to))
  {
    if |xs| > 0 {
      var ys := Rename(xs, from, to);
      RenameDistinct(xs[1..], from, to);
      assert ys[1..] == Rename(xs[1..], from, to);
      forall k | 1 <= k < |ys|
        ensures ys[k] != ys[0]
      {
        assert xs[k] in xs[1..];
      }
    }
  }

  lemma {:induction false} RenameIndex(xs: seq<string>, from: string, to: string, c: string)
    requires to !in xs
    ensures c == to ==> IndexOf(Rename(xs, from, to), c) == IndexOf(xs, from)
    ensures c != to && c != from ==> IndexOf(Rename(xs, from, to), c) == IndexOf(xs, c)
  {
    if |xs| > 0 {
      var ys := Rename(xs, from, to);
      RenameIndex(xs[1..], from, to, c);
      assert ys[1..] == Rename(xs[1..], from, to);
      assert xs[0] != to && ys[0] == if xs[0] == from then to else xs[0];
    }
  }

  /** `df.rename(columns={from: to})` when no column is already named `to`: the column
      `from` now answers to `to`, every other column is untouched, and no cell moves. */
  function RenameColumn(f: Frame, from: string, to: string): (g: Frame)
    requires WellFormed(f) && to !in f.columns
    ensures WellFormed(g) && |g.columns| == |f.columns| && |g.rows| == |f.rows|
    ensures forall c :: c in g.columns <==> (c in f.columns && c != from) || (c == to && from in f.columns)
    ensures forall i :: 0 <= i < |g.rows| ==> Get(g.columns, g.rows[i], to) == Get(f.columns, f.rows[i], from)
    ensures forall i, c :: 0 <= i < |g.rows| && c != from && c != to ==>
      Get(g.columns, g.rows[i], c) == Get(f.columns, f.rows[i], c)
  {
    RenameDistinct(f.columns, from, to);
    var g := Frame(Rename(f.columns, from, to), f.rows);
    forall c
      ensures c in g.columns <==> (c in f.columns && c != from) || (c == to && from in f.columns)
    {
      if c in f.columns && c != from {
        var k :| 0 <= k < |f.columns| && f.columns[k] == c;
        assert g.columns[k] == c;
      }
      if c == to && from in f.columns {
        var k :| 0 <= k < |f.columns| && f.columns[k] == from;
        assert g.columns[k] == to;
      }
    }
    forall c
      ensures c == to ==> IndexOf(g.columns, c) == IndexOf(f.columns, from)
      ensures c != to && c != from ==> IndexOf(g.columns, c) == IndexOf(f.columns, c)
    {
      RenameIndex(f.columns, from, to, c);
    }
    g
  }

  /** The same rename seen from one record: the value under `from` now answers to `to`,
      every other column keeps its value. */
  function RenameKey(r: Record, from: string, to: string): (out: Record)
    ensures from in r ==> to in out && out[to] == r[from]
    ensures from in r && from != to ==> from !in out
    ensures forall k :: k != from && k != to ==> (k in out <==> k in r) && (k in r ==> out[k] == r[k])
    ensures from !in r ==> out == r
  {
    if from in r then (r - {from})[to := r[from]] else r
  }

  /** A list of `rename` calls applied in order to one record. */
  function RenameKeys(r: Record, renames: seq<(string, string)>): Record
    decreases |renames|
  {
    if |renames| == 0 then r else RenameKeys(RenameKey(r, renames[0].0, renames[0].1), renames[1..])
  }

  /** No rename reads or writes a name another rename of the list reads or writes, and
      none renames a column to itself. */
  predicate Independent(renames: seq<(string, string)>) {
    (forall i :: 0 <= i < |renames| ==> renames[i].0 != renames[i].1) &&
    (forall i, j :: 0 <= i < j < |renames| ==>
      renames[i].0 != renames[j].0 && renames[i].0 != renames[j].1 &&
      renames[i].1 != renames[j].0 && renames[i].1 != renames[j].1)
  }

  /** A column not named in the list. */
  predicate Untouched(renames: seq<(string, string)>, k: string) {
    forall i :: 0 <= i < |renames| ==> k != renames[i].0 && k != renames[i].1
  }

  /** A column added under a name no rename touches, then independent renames: the new
      column is there, another untouched column is as it was, and each renamed column
      holds its old value. */
  lemma AddThenRename(r: Record, key: string, v: Cell, renames: seq<(string, string)>, keep: string)
    requires Independent(renames) && Untouched(renames, key) && Untouched(renames, keep) && keep != key
    ensures var t := RenameKeys(r[key := v], renames);
      key in t && t[key] == v &&
      (keep in t <==> keep in r) && (keep in r ==> t[keep] == r[keep]) &&
      (forall i :: 0 <= i < |renames| && renames[i].0 in r ==>
        renames[i].1 in t && t[renames[i].1] == r[renames[i].0])
  {
    var w := r[key := v];
    RenameKeysEffect(w, renames);
    var t := RenameKeys(w, renames);
    forall i | 0 <= i < |renames| && renames[i].0 in r
      ensures renames[i].1 in t && t[renames[i].1] == r[renames[i].0]
    {
      assert renames[i].0 != key;
    }
  }

  /** Independent renames each move their column's value to the new name and leave every
      other column alone. */
  lemma {:induction false} RenameKeysEffect(r: Record, renames: seq<(string, string)>)
    requires Independent(renames)
    ensures forall i :: 0 <= i < |renames| && renames[i].0 in r ==>
      renames[i].1 in RenameKeys(r, renames) && RenameKeys(r, renames)[renames[i].1] == r[renames[i].0]
    ensures forall k :: Untouched(renames, k) ==>
      (k in RenameKeys(r, renames) <==> k in r) && (k in r ==> RenameKeys(r, renames)[k] == r[k])
    decreases |renames|
  {
    if |renames| > 0 {
      var f, t := renames[0].0, renames[0].1;
      var r1 := RenameKey(r, f, t);
      var rest := renames[1..];
      assert Independent(rest) by {
        forall i | 0 <= i < |rest|
          ensures rest[i].0 != rest[i].1
        {
          assert rest[i] == renames[i + 1];
        }
        forall i, j | 0 <= i < j < |rest|
          ensures rest[i].0 != rest[j].0 && rest[i].0 != rest[j].1 && rest[i].1 != rest[j].0 && rest[i].1 != rest[j].1
        {
          assert rest[i] == renames[i + 1] && rest[j] == renames[j + 1];
        }
      }
      RenameKeysEffect(r1, rest);
      var out := RenameKeys(r, renames);
      assert out == RenameKeys(r1, rest);
      forall i | 0 <= i < |renames| && renames[i].0 in r
        ensures renames[i].1 in out && out[renames[i].1] == r[renames[i].0]
      {
        if i == 0 {
          assert Untouched(rest, t) by {
            forall j | 0 <= j < |rest|
              ensures t != rest[j].0 && t != rest[j].1
            {
              assert rest[j] == renames[j + 1];
            }
          }
        } else {
          assert rest[i - 1] == renames[i];
        }
      }
      forall k | Untouched(renames, k)
        ensures (k in out <==> k in r) && (k in r ==> out[k] == r[k])
      {
        assert k != renames[0].0 && k != renames[0].1;
        assert Untouched(rest, k) by {
          forall j | 0 <= j < |rest|
            ensures k != rest[j].0 && k != rest[j].1
          {
            assert rest[j] == renames[j + 1];
          }
        }
      }
    }
  }

  // ---------------------------------------------------------------------------
  // `df[cols]` and `df.sort_values(by=c, ascending=False)`
  // ---------------------------------------------------------------------------

  /** `df[cols]`: the listed columns in the listed order; KeyError when one is missing. */
  function Select(f: Frame, cols: seq<string>): (r: Result<Frame>)
    ensures r.Ok? <==> forall c :: c in cols ==> c in f.columns
    ensures r.Ok? ==> r.value.columns == cols && |r.value.rows| == |f.rows|
    ensures r.Ok? ==> forall i :: 0 <= i < |f.rows| ==> |r.value.rows[i]| == |cols|
    ensures r.Ok? ==> Aligned(r.value)
    ensures r.Ok? ==> forall i, k :: 0 <= i < |f.rows| && 0 <= k < |cols| ==>
      r.value.rows[i][k] == Get(f.columns, f.rows[i], cols[k])
    ensures r.Ok? && Distinct(cols) ==> WellFormed(r.value)
    ensures r.Ok? && Distinct(cols) ==> forall i, c :: 0 <= i < |f.rows| && c in cols ==>
      Get(cols, r.value.rows[i], c) == Get(f.columns, f.rows[i], c)
    ensures r.Err? ==> r.error == KeyError
  {
    if forall c :: c in cols ==> c in f.columns then
      var g := Frame(cols, seq(|f.rows|, i requires 0 <= i < |f.rows| => Align(f.columns, f.rows[i], cols)));
      assert forall i, c :: 0 <= i < |f.rows| && c in cols && Distinct(cols) ==>
        Get(cols, g.rows[i], c) == Get(f.columns, f.rows[i], c) by {
        forall i, c | 0 <= i < |f.rows| && c in cols && Distinct(cols)
          ensures Get(cols, g.rows[i], c) == Get(f.columns, f.rows[i], c)
        {
          var k :| 0 <= k < |cols| && cols[k] == c;
          DistinctIndex(cols, k);
        }
      }
      assert Aligned(g) by {
        forall row | row in g.rows
          ensures |row| == |cols|
        {
          var i :| 0 <= i < |g.rows| && g.rows[i] == row;
        }
      }
      Ok(g)
    else
      Err(KeyError)
  }
  /** A selected column reads the same cell as in the original frame. */
  lemma SelectGet(f: Frame, cols: seq<string>, r: Frame, i: nat, c: string)
    requires Select(f, cols) == Ok(r) && i < |f.rows| && c in cols
    ensures Get(cols, r.rows[i], c) == Get(f.columns, f.rows[i], c)
  {
    var k := IndexOf(cols, c).value;
    assert r.rows[i][k] == Get(f.columns, f.rows[i], cols[k]);
  }


  /** The numeric value of a cell as a sort key; None for a missing or text cell. */
  function NumKey(v: Cell): Option<real> {
    match v
    case IntCell(i) => Some(i as real)
    case NumCell(x) => Some(x)
    case _ => None
  }

  /** In a descending sort with missing values last, `a` must come before `b`. */
  predicate Ahead(a: Cell, b: Cell) {
    NumKey(a).Some? && (NumKey(b).None? || NumKey(a).value > NumKey(b).value)
  }

  predicate SortedDesc(columns: seq<string>, rows: seq<seq<Cell>>, c: string) {
    forall i, j :: 0 <= i < j < |rows| ==> !Ahead(Get(columns, rows[j], c), Get(columns, rows[i], c))
  }

  /** Insert `x` before the first row it must come ahead of. */
  function InsertDesc(columns: seq<string>, c: string, x: seq<Cell>, rows: seq<seq<Cell>>): (out: seq<seq<Cell>>)
    ensures multiset(out) == multiset(rows) + multiset{x}
  {
    if |rows| == 0 then [x]
    else if Ahead(Get(columns, x, c), Get(columns, rows[0], c)) then [x] + rows
    else
      assert rows == [rows[0]] + rows[1..];
      [rows[0]] + InsertDesc(columns, c, x, rows[1..])
  }

  lemma {:induction false} InsertDescSorted(columns: seq<string>, c: string, x: seq<Cell>, rows: seq<seq<Cell>>)
    requires SortedDesc(columns, rows, c)
    ensures SortedDesc(columns, InsertDesc(columns, c, x, rows), c)
    decreases |rows|
  {
    if |rows| == 0 {
    } else if Ahead(Get(columns, x, c), Get(columns, rows[0], c)) {
    } else {
      InsertDescSorted(columns, c, x, rows[1..]);
      var tail := InsertDesc(columns, c, x, rows[1..]);
      var out := [rows[0]] + tail;
      forall i, j | 0 <= i < j < |out|
        ensures !Ahead(Get(columns, out[j], c), Get(columns, out[i], c))
      {
        if i == 0 {
          assert out[j] in multiset(tail);
          assert out[j] == x || out[j] in rows[1..];
        }
      }
    }
  }

  /** The rows ordered by column `c`, largest first, missing values last. */
  function SortRowsDesc(columns: seq<string>, rows: seq<seq<Cell>>, c: string): (out: seq<seq<Cell>>)
    ensures multiset(out) == multiset(rows)
    ensures |out| == |rows|
  {
    if |rows| == 0 then []
    else
      var init, last := rows[..|rows| - 1], rows[|rows| - 1];
      assert multiset(rows) == multiset(init) + multiset{last} by {
        assert rows == init + [last];
      }
      InsertDesc(columns, c, last, SortRowsDesc(columns, init, c))
  }

  lemma {:induction false} SortRowsDescSorted(columns: seq<string>, rows: seq<seq<Cell>>, c: string)
    ensures SortedDesc(columns, SortRowsDesc(columns, rows, c), c)
  {
    if |rows| > 0 {
      SortRowsDescSorted(columns, rows[..|rows| - 1], c);
      InsertDescSorted(columns, c, rows[|rows| - 1], SortRowsDesc(columns, rows[..|rows| - 1], c));
    }
  }

  /** The rows whose cell in `c` has sort key `v`, in their order. */
  function KeyedAs(columns: seq<string>, rows: seq<seq<Cell>>, c: string, v: Option<real>): seq<seq<Cell>> {
    if |rows| == 0 then []
    else (if NumKey(Get(columns, rows[0], c)) == v then [rows[0]] else []) + KeyedAs(columns, rows[1..], c, v)
  }

  lemma {:induction false} KeyedAsAppend(columns: seq<string>, a: seq<seq<Cell>>, b: seq<seq<Cell>>, c: string, v: Option<real>)
    ensures KeyedAs(columns, a + b, c, v) == KeyedAs(columns, a, c, v) + KeyedAs(columns, b, c, v)
    decreases |a|
  {
    if |a| == 0 {
      assert a + b == b;
    } else {
      var h := if NumKey(Get(columns, a[0], c)) == v then [a[0]] else [];
      assert (a + b)[0] == a[0] && (a + b)[1..] == a[1..] + b;
      KeyedAsAppend(columns, a[1..], b, c, v);
      Regroup(h, KeyedAs(columns, a[1..], c, v), KeyedAs(columns, b, c, v));
    }
  }

  /** One row is kept exactly when its key is `v`. */
  lemma KeyedAsOne(columns: seq<string>, x: seq<Cell>, c: string, v: Option<real>)
    ensures KeyedAs(columns, [x], c, v) == KeyedRow(columns, x, c, v)
  {
    assert [x][1..] == [];
  }

  lemma {:induction false} KeyedAsNone(columns: seq<string>, rows: seq<seq<Cell>>, c: string, v: Option<real>)
    requires forall i :: 0 <= i < |rows| ==> NumKey(Get(columns, rows[i], c)) != v
    ensures KeyedAs(columns, rows, c, v) == []
  {
    if |rows| > 0 {
      KeyedAsNone(columns, rows[1..], c, v);
    }
  }

  /** A row that must come ahead of the first row of a sorted list ties with none of them. */
  lemma AheadTiesNone(columns: seq<string>, c: string, x: seq<Cell>, rows: seq<seq<Cell>>)
    requires SortedDesc(columns, rows, c) && |rows| > 0
    requires Ahead(Get(columns, x, c), Get(columns, rows[0], c))
    ensures KeyedAs(columns, rows, c, NumKey(Get(columns, x, c))) == []
  {
    var v := NumKey(Get(columns, x, c));
    forall i | 0 <= i < |rows|
      ensures NumKey(Get(columns, rows[i], c)) != v
    {
      if i > 0 {
        assert !Ahead(Get(columns, rows[i], c), Get(columns, rows[0], c));
      }
    }
    KeyedAsNone(columns, rows, c, v);
  }

  /** The sort key of a single row, as the list of that row or nothing. */
  function KeyedRow(columns: seq<string>, x: seq<Cell>, c: string, v: Option<real>): seq<seq<Cell>> {
    if NumKey(Get(columns, x, c)) == v then [x] else []
  }

  lemma InsertAheadTies(columns: seq<string>, c: string, x: seq<Cell>, rows: seq<seq<Cell>>, v: Option<real>)
    requires SortedDesc(columns, rows, c) && |rows| > 0
    requires Ahead(Get(columns, x, c), Get(columns, rows[0], c))
    ensures KeyedAs(columns, [x] + rows, c, v) == KeyedAs(columns, rows, c, v) + KeyedRow(columns, x, c, v)
  {
    KeyedAsAppend(columns, [x], rows, c, v);
    KeyedAsOne(columns, x, c, v);
    if NumKey(Get(columns, x, c)) == v {
      AheadTiesNone(columns, c, x, rows);
    }
  }

  lemma InsertBehindTies(columns: seq<string>, c: string, x: seq<Cell>, rows: seq<seq<Cell>>, tail: seq<seq<Cell>>, v: Option<real>)
    requires |rows| > 0
    requires KeyedAs(columns, tail, c, v) == KeyedAs(columns, rows[1..], c, v) + KeyedRow(columns, x, c, v)
    ensures KeyedAs(columns, [rows[0]] + tail, c, v) == KeyedAs(columns, rows, c, v) + KeyedRow(columns, x, c, v)
  {
    KeyedAsAppend(columns, [rows[0]], tail, c, v);
    KeyedAsAppend(columns, [rows[0]], rows[1..], c, v);
    assert [rows[0]] + rows[1..] == rows;
    Regroup(KeyedAs(columns, [rows[0]], c, v), KeyedAs(columns, rows[1..], c, v), KeyedRow(columns, x, c, v));
  }

  /** Insertion puts a row after every row it ties with. */
  lemma {:induction false} InsertDescTies(columns: seq<string>, c: string, x: seq<Cell>, rows: seq<seq<Cell>>, v: Option<real>)
    requires SortedDesc(columns, rows, c)
    ensures KeyedAs(columns, InsertDesc(columns, c, x, rows), c, v)
      == KeyedAs(columns, rows, c, v) + KeyedRow(columns, x, c, v)
    decreases |rows|
  {
    if |rows| == 0 {
      KeyedAsOne(columns, x, c, v);
    } else if Ahead(Get(columns, x, c), Get(columns, rows[0], c)) {
      InsertAheadTies(columns, c, x, rows, v);
    } else {
      InsertDescTies(columns, c, x, rows[1..], v);
      InsertBehindTies(columns, c, x, rows, InsertDesc(columns, c, x, rows[1..]), v);
    }
  }

  /** The descending sort is stable: rows with equal keys keep their order. */
  lemma {:induction false} SortRowsDescStable(columns: seq<string>, rows: seq<seq<Cell>>, c: string, v: Option<real>)
    ensures KeyedAs(columns, SortRowsDesc(columns, rows, c), c, v) == KeyedAs(columns, rows, c, v)
  {
    if |rows| > 0 {
      var init, last := rows[..|rows| - 1], rows[|rows| - 1];
      var sorted := SortRowsDesc(columns, init, c);
      assert KeyedAs(columns, rows, c, v) == KeyedAs(columns, init, c, v) + KeyedRow(columns, last, c, v) by {
        assert rows == init + [last];
        KeyedAsAppend(columns, init, [last], c, v);
        KeyedAsOne(columns, last, c, v);
      }
      assert KeyedAs(columns, SortRowsDesc(columns, rows, c), c, v)
        == KeyedAs(columns, sorted, c, v) + KeyedRow(columns, last, c, v) by {
        SortRowsDescSorted(columns, init, c);
        InsertDescTies(columns, c, last, sorted, v);
      }
      SortRowsDescStable(columns, init, c, v);
    }
  }

  /** `df.sort_values(by=c, ascending=False)`: the same rows, largest `c` first. */
  function SortDesc(f: Frame, c: string): (g: Frame)
    ensures g.columns == f.columns && multiset(g.rows) == multiset(f.rows)
    ensures SortedDesc(g.columns, g.rows, c)
  {
    SortRowsDescSorted(f.columns, f.rows, c);
    Frame(f.columns, SortRowsDesc(f.columns, f.rows, c))
  }

  lemma SortDescWellFormed(f: Frame, c: string)
    requires WellFormed(f)
    ensures WellFormed(SortDesc(f, c))
  {
    var g := SortDesc(f, c);
    forall r | r in g.rows
      ensures |r| == |g.columns|
    {
      assert r in multiset(f.rows);
    }
  }

  lemma SortDescAligned(f: Frame, c: string)
    requires Aligned(f)
    ensures Aligned(SortDesc(f, c))
  {
    var g := SortDesc(f, c);
    forall r | r in g.rows
      ensures |r| == |g.columns|
    {
      assert r in multiset(f.rows);
    }
  }
}
