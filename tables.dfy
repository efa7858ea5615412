/**
 * Insertion-ordered records (Python dicts, JavaScript objects) and data frames
 * modelled as an ordered list of column names plus one map per row. A key that a
 * row's map lacks is a missing value (pandas' NaN); that is how concatenation
 * with a union of columns leaves cells empty.
 */
module Records {

  predicate Distinct(s: seq<string>) {
    forall i, j :: 0 <= i < j < |s| ==> s[i] != s[j]
  }

  /** An insertion-ordered dictionary: `keys` in first-insertion order, `values` the lookup. */
  datatype Record<V> = Record(keys: seq<string>, values: map<string, V>)

  ghost predicate ValidRecord<V>(r: Record<V>) {
    Distinct(r.keys) && forall k :: k in r.values <==> k in r.keys
  }

  function EmptyRecord<V>(): (r: Record<V>)
    ensures ValidRecord(r) && r.keys == []
  {
    Record([], map[])
  }

  /** `d[k] = v`: an existing key keeps its place and takes the new value; a new key goes last. */
  function Put<V>(r: Record<V>, k: string, v: V): (r': Record<V>)
    requires ValidRecord(r)
    ensures ValidRecord(r')
    ensures k in r'.values && r'.values[k] == v
    ensures forall x :: x != k ==> (x in r'.values <==> x in r.values)
    ensures forall x :: x != k && x in r.values ==> r'.values[x] == r.values[x]
    ensures |r.keys| <= |r'.keys| && r'.keys[..|r.keys|] == r.keys
  {
    if k in r.values then Record(r.keys, r.values[k := v])
    else Record(r.keys + [k], r.values[k := v])
  }
}

module Tables {
  import opened Records
  import opened Wrappers
  import opened Text

  /** A cell of a data frame: `None` is a missing value (pandas' NaN). */
  type Cell = Option<string>

  /**
   * A data frame as pandas lays it out: the column labels in order (not necessarily
   * distinct) and the rows, each a sequence of cells in column order.
   */
  datatype Frame = Frame(columns: seq<string>, rows: seq<seq<Cell>>)

  /** Every row has one cell per column. */
  predicate Rectangular(f: Frame) {
    forall i :: 0 <= i < |f.rows| ==> |f.rows[i]| == |f.columns|
  }

  /**
   * The untyped grid `pd.read_csv(..., header=None)` yields, each cell already
   * turned to text: rows of equal width, as every data frame has.
   */
  predicate IsGrid(g: seq<seq<Cell>>) {
    forall i :: 0 <= i < |g| ==> |g[i]| == |g[0]|
  }

  /** Python's `str(cell)`: a missing value prints as `nan`. */
  function CellText(c: Cell): string {
    if c.Some? then c.value else "nan"
  }

  /** The stripped text of a present cell, "" for a missing one. */
  function StrippedText(c: Cell): string {
    if c.Some? then Strip(c.value) else ""
  }

  /** A present cell whose text has no whitespace at either end strips to itself. */
  lemma StripsTo(c: Cell, s: string)
    requires c == Some(s) && |s| >= 1 && !IsPySpace(s[0]) && !IsPySpace(s[|s| - 1])
    ensures StrippedText(c) == s
  {
    TrimNoSpaceEnds(s, PythonSpaces);
  }

  /** What `pd.notna(c) and str(c).strip()` accepts: a present, non-blank cell. */
  predicate HasText(c: Cell) {
    StrippedText(c) != ""
  }

  /** `s` with `x` placed before position `loc`; what follows moves one place right. */
  function InsertAt<T>(s: seq<T>, loc: nat, x: T): (r: seq<T>)
    requires loc <= |s|
    ensures |r| == |s| + 1 && r[loc] == x
    ensures forall i :: 0 <= i < loc ==> r[i] == s[i]
    ensures forall i :: loc < i < |r| ==> r[i] == s[i - 1]
  {
    assert s == s[..loc] + s[loc..];
    s[..loc] + [x] + s[loc..]
  }

  datatype InsertError = DuplicateColumn(name: string) | PositionOutOfRange(loc: nat)

  /**
   * pandas' `DataFrame.insert(loc, name, value)` with a scalar value: refuses a label
   * the frame already has (ValueError), then a position past the end (IndexError);
   * otherwise the new column, holding `value` in every row, goes before position `loc`.
   */
  function Insert(f: Frame, loc: nat, name: string, value: string): (r: Result<Frame, InsertError>)
    requires Rectangular(f)
    ensures r.Ok? <==> name !in f.columns && loc <= |f.columns|
    ensures name in f.columns ==> r == Err(DuplicateColumn(name))
    ensures name !in f.columns && loc > |f.columns| ==> r == Err(PositionOutOfRange(loc))
    ensures r.Ok? ==> Rectangular(r.value) && |r.value.rows| == |f.rows|
    ensures r.Ok? ==> r.value.columns == InsertAt(f.columns, loc, name)
    ensures r.Ok? ==> forall i :: 0 <= i < |f.rows| ==> r.value.rows[i] == InsertAt(f.rows[i], loc, Some(value))
  {
    if name in f.columns then Err(DuplicateColumn(name))
    else if loc > |f.columns| then Err(PositionOutOfRange(loc))
    else Ok(Frame(InsertAt(f.columns, loc, name), seq(|f.rows|, i requires 0 <= i < |f.rows| => InsertAt(f.rows[i], loc, Some(value)))))
  }

  /** Inserting a label the frame lacks keeps the labels distinct. */
  lemma InsertKeepsDistinct(f: Frame, loc: nat, name: string, value: string)
    requires Rectangular(f) && Distinct(f.columns) && Insert(f, loc, name, value).Ok?
    ensures Distinct(Insert(f, loc, name, value).value.columns)
  {
    var cols := Insert(f, loc, name, value).value.columns;
    forall i, j | 0 <= i < j < |cols| ensures cols[i] != cols[j] {
      if i == loc {
        assert cols[j] == f.columns[j - 1];
      } else if j == loc {
        assert cols[i] == f.columns[i];
      } else {
        var i', j' := if i < loc then i else i - 1, if j < loc then j else j - 1;
        assert cols[i] == f.columns[i'] && cols[j] == f.columns[j'];
      }
    }
  }

  /** Appends to `acc`, in order, each name of `cs` it does not have yet. */
  function AddNew(acc: seq<string>, cs: seq<string>): (r: seq<string>)
    requires Distinct(acc)
    ensures Distinct(r)
    ensures |acc| <= |r| && r[..|acc|] == acc
    ensures forall c :: c in r <==> c in acc || c in cs
    decreases |cs|
  {
    if |cs| == 0 then acc
    else if cs[0] in acc then AddNew(acc, cs[1..])
    else
      var acc' := acc + [cs[0]];
      var r := AddNew(acc', cs[1..]);
      assert r[..|acc|] == r[..|acc'|][..|acc|];
      r
  }

  /**
   * The columns of a concatenation: every column of every frame, each once,
   * in order of first appearance (what `pd.concat` and `pd.DataFrame(list_of_dicts)` use).
   */
  function UnionColumns(css: seq<seq<string>>): (r: seq<string>)
    ensures Distinct(r)
    ensures forall c :: c in r <==> exists i :: 0 <= i < |css| && c in css[i]
    decreases |css|
  {
    if |css| == 0 then []
    else
      var prev := UnionColumns(css[..|css| - 1]);
      var r := AddNew(prev, css[|css| - 1]);
      assert forall c :: c in r <==> exists i :: 0 <= i < |css| && c in css[i] by {
        forall c ensures c in r <==> exists i :: 0 <= i < |css| && c in css[i] {
          if c in r && c in prev {
            var i :| 0 <= i < |css| - 1 && c in css[..|css| - 1][i];
            assert c in css[i];
          }
          if exists i :: 0 <= i < |css| && c in css[i] {
            var i :| 0 <= i < |css| && c in css[i];
            if i < |css| - 1 {
              assert c in css[..|css| - 1][i];
            }
          }
        }
      }
      r
  }

  /** Columns none of which is there yet are appended as they come. */
  lemma {:induction false} AddNewAllFresh(acc: seq<string>, cs: seq<string>)
    requires Distinct(acc + cs)
    ensures Distinct(acc) && AddNew(acc, cs) == acc + cs
    decreases |cs|
  {
    assert forall i, j :: 0 <= i < j < |acc| ==> (acc + cs)[i] == acc[i] && (acc + cs)[j] == acc[j];
    if |cs| > 0 {
      assert cs[0] == (acc + cs)[|acc|];
      assert cs[0] !in acc by {
        forall i | 0 <= i < |acc| ensures acc[i] != cs[0] {
          assert acc[i] == (acc + cs)[i];
        }
      }
      assert (acc + [cs[0]]) + cs[1..] == acc + cs;
      AddNewAllFresh(acc + [cs[0]], cs[1..]);
    }
  }

  /** The union starts with the first list's columns, in their order, when they are distinct. */
  lemma {:induction false} UnionColumnsLeads(css: seq<seq<string>>)
    requires |css| >= 1 && Distinct(css[0])
    ensures |css[0]| <= |UnionColumns(css)| && UnionColumns(css)[..|css[0]|] == css[0]
    decreases |css|
  {
    if |css| == 1 {
      assert [] + css[0] == css[0];
      AddNewAllFresh([], css[0]);
      assert css[..0] == [];
    } else {
      var front := css[..|css| - 1];
      assert front[0] == css[0];
      UnionColumnsLeads(front);
      var u := UnionColumns(css);
      assert u[..|css[0]|] == u[..|UnionColumns(front)|][..|css[0]|];
    }
  }

  /** The position of the first `c` in `cs`. */
  function IndexOf(cs: seq<string>, c: string): (p: nat)
    requires c in cs
    ensures p < |cs| && cs[p] == c && c !in cs[..p]
  {
    if cs[0] == c then 0
    else
      var p := IndexOf(cs[1..], c) + 1;
      assert cs[..p] == [cs[0]] + cs[1..][..p - 1];
      p
  }

  /** The cell of column `c` in a row laid out by `cols`; missing when there is no such column. */
  function Lookup(cols: seq<string>, row: seq<Cell>, c: string): Cell
    requires |row| == |cols|
  {
    if c in cols then row[IndexOf(cols, c)] else None
  }

  /** The rows of `f` laid out by the columns `u`, missing cells where `f` lacks a column. */
  function Relayout(u: seq<string>, f: Frame): (rows: seq<seq<Cell>>)
    requires Rectangular(f)
    ensures |rows| == |f.rows|
    ensures forall i :: 0 <= i < |rows| ==> |rows[i]| == |u|
  {
    seq(|f.rows|, i requires 0 <= i < |f.rows| => seq(|u|, j requires 0 <= j < |u| => Lookup(f.columns, f.rows[i], u[j])))
  }

  function ColumnLists(fs: seq<Frame>): (r: seq<seq<string>>)
    ensures |r| == |fs| && forall i :: 0 <= i < |fs| ==> r[i] == fs[i].columns
  {
    seq(|fs|, i requires 0 <= i < |fs| => fs[i].columns)
  }

  predicate AllRectangular(fs: seq<Frame>) {
    forall k :: 0 <= k < |fs| ==> Rectangular(fs[k])
  }

  /** The rows of all frames, one frame after another, laid out by `u`. */
  function AllRows(u: seq<string>, fs: seq<Frame>): seq<seq<Cell>>
    requires AllRectangular(fs)
    decreases |fs|
  {
    if |fs| == 0 then [] else AllRows(u, fs[..|fs| - 1]) + Relayout(u, fs[|fs| - 1])
  }

  /** The total number of rows, frame by frame. */
  function RowCount(fs: seq<Frame>): nat
    decreases |fs|
  {
    if |fs| == 0 then 0 else RowCount(fs[..|fs| - 1]) + |fs[|fs| - 1].rows|
  }

  /** `pd.concat(frames, ignore_index=True)`: rows one after another, columns unioned. */
  function Concat(fs: seq<Frame>): (r: Frame)
    requires AllRectangular(fs)
  {
    var u := UnionColumns(ColumnLists(fs));
    Frame(u, AllRows(u, fs))
  }

  lemma {:induction false} AllRowsShape(u: seq<string>, fs: seq<Frame>)
    requires AllRectangular(fs)
    ensures |AllRows(u, fs)| == RowCount(fs)
    ensures forall i :: 0 <= i < |AllRows(u, fs)| ==> |AllRows(u, fs)[i]| == |u|
    decreases |fs|
  {
    if |fs| > 0 {
      AllRowsShape(u, fs[..|fs| - 1]);
    }
  }

  /** Row `i` of frame `k` lands at position `i` after the rows of the frames before `k`. */
  lemma {:induction false} AllRowsAt(u: seq<string>, fs: seq<Frame>, k: nat, i: nat)
    requires AllRectangular(fs) && k < |fs| && i < |fs[k].rows|
    ensures RowCount(fs[..k]) + i < |AllRows(u, fs)|
    ensures AllRows(u, fs)[RowCount(fs[..k]) + i] == Relayout(u, fs[k])[i]
    decreases |fs|
  {
    var n := |fs| - 1;
    var init := fs[..n];
    AllRowsShape(u, init);
    if k == n {
      assert fs[..k] == init;
    } else {
      assert init[..k] == fs[..k];
      AllRowsAt(u, init, k, i);
    }
  }

  /**
   * The concatenation has the union of the columns, the frames' rows in order, and in
   * each of them the original cell under every column the frame had and a missing
   * value under the others.
   */
  lemma ConcatCells(fs: seq<Frame>, k: nat, i: nat, j: nat)
    requires AllRectangular(fs) && k < |fs| && i < |fs[k].rows|
    requires j < |Concat(fs).columns|
    ensures RowCount(fs[..k]) + i < |Concat(fs).rows|
    ensures |Concat(fs).rows[RowCount(fs[..k]) + i]| == |Concat(fs).columns|
    ensures var c := Concat(fs).columns[j];
      Concat(fs).rows[RowCount(fs[..k]) + i][j] == if c in fs[k].columns then fs[k].rows[i][IndexOf(fs[k].columns, c)] else None
  {
    AllRowsAt(Concat(fs).columns, fs, k, i);
  }

  /** A concatenation holds exactly the frames' rows, each with one cell per column of the union. */
  lemma ConcatShape(fs: seq<Frame>)
    requires AllRectangular(fs)
    ensures Rectangular(Concat(fs)) && Distinct(Concat(fs).columns)
    ensures |Concat(fs).rows| == RowCount(fs)
    ensures forall c :: c in Concat(fs).columns <==> exists k :: 0 <= k < |fs| && c in fs[k].columns
  {
    var u := UnionColumns(ColumnLists(fs));
    AllRowsShape(u, fs);
    forall c ensures c in u <==> exists k :: 0 <= k < |fs| && c in fs[k].columns {
      if c in u {
        var k :| 0 <= k < |fs| && c in ColumnLists(fs)[k];
      }
      if exists k :: 0 <= k < |fs| && c in fs[k].columns {
        var k :| 0 <= k < |fs| && c in fs[k].columns;
        assert c in ColumnLists(fs)[k];
      }
    }
  }

  /**
   * `pd.DataFrame(list_of_dicts)`: one row per record, the union of the keys as
   * columns, a missing value where a record lacks a key.
   */
  function FromRecords(rs: seq<Record<string>>): (f: Frame)
    ensures Rectangular(f) && Distinct(f.columns) && |f.rows| == |rs|
    ensures f.columns == UnionColumns(seq(|rs|, k requires 0 <= k < |rs| => rs[k].keys))
    ensures forall i :: 0 <= i < |rs| ==> |f.rows[i]| == |f.columns| && forall j :: 0 <= j < |f.columns| ==>
      f.rows[i][j] == if f.columns[j] in rs[i].values then Some(rs[i].values[f.columns[j]]) else None
  {
    var u := UnionColumns(seq(|rs|, k requires 0 <= k < |rs| => rs[k].keys));
    Frame(u, seq(|rs|, i requires 0 <= i < |rs| =>
      seq(|u|, j requires 0 <= j < |u| => if u[j] in rs[i].values then Some(rs[i].values[u[j]]) else None)))
  }
}
