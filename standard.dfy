/**
 * The standard branch of `clean_csv` (zensu, teiten and ari bulletins): column names
 * built from the disease row (row 2, sparse, forward-filled) and the report-type row
 * (row 3), data from row 4 on, and the year and week of the file name put in front.
 */
module StandardNormaliser {
  import opened Wrappers
  import opened Text
  import opened Records
  import opened Tables

  const RegionColumn := "都道府県"
  const YearColumn := "年"
  const WeekColumn := "週"

  /** The cells of a header row as `str(cell).strip()` reads them, "" for missing or blank ones. */
  function Texts(row: seq<Cell>): (r: seq<string>)
    ensures |r| == |row| && forall i :: 0 <= i < |row| ==> r[i] == StrippedText(row[i])
  {
    seq(|row|, i requires 0 <= i < |row| => StrippedText(row[i]))
  }

  /**
   * The disease label in force at column `i`: the last non-empty label among columns
   * 1..i, or "" when there is none (column 0 never sets a label).
   */
  function LastLabel(labels: seq<string>, i: nat): string
    requires i < |labels|
  {
    if i == 0 then ""
    else if labels[i] != "" then labels[i]
    else LastLabel(labels, i - 1)
  }

  /**
   * The label in force is empty exactly when no column in 1..i has one; otherwise it is
   * the label of some column `k` in 1..i after which no column has one.
   */
  lemma {:induction false} LastLabelIsLast(labels: seq<string>, i: nat) returns (k: nat)
    requires i < |labels|
    ensures LastLabel(labels, i) == "" <==> forall m :: 1 <= m <= i ==> labels[m] == ""
    ensures LastLabel(labels, i) != "" ==>
      && 1 <= k <= i && LastLabel(labels, i) == labels[k]
      && forall m :: k < m <= i ==> labels[m] == ""
  {
    if i == 0 {
      k := 0;
    } else if labels[i] != "" {
      k := i;
    } else {
      k := LastLabelIsLast(labels, i - 1);
    }
  }

  /**
   * The name of column `i` from the stripped header texts: the region label for column
   * 0; `column_{i}` when the report type is blank; otherwise the report type, after the
   * disease label in force and an underscore when there is one.
   */
  function ColumnName(labels: seq<string>, types: seq<string>, i: nat): string
    requires |types| == |labels| && i < |labels|
  {
    if i == 0 then RegionColumn
    else if types[i] != "" then
      var current := LastLabel(labels, i);
      if current != "" then current + "_" + types[i] else types[i]
    else "column_" + IntToString(i)
  }

  /** The names of all columns, from the disease row and the report-type row. */
  function HeaderNames(disease: seq<Cell>, types: seq<Cell>): (names: seq<string>)
    requires |types| == |disease|
    ensures |names| == |disease|
    ensures forall i :: 0 <= i < |disease| ==> names[i] == ColumnName(Texts(disease), Texts(types), i)
  {
    seq(|disease|, i requires 0 <= i < |disease| => ColumnName(Texts(disease), Texts(types), i))
  }

  lemma AppendName(names: seq<string>, name: string, labels: seq<string>, kinds: seq<string>)
    requires |kinds| == |labels| && |names| < |labels|
    requires forall k :: 0 <= k < |names| ==> names[k] == ColumnName(labels, kinds, k)
    requires name == ColumnName(labels, kinds, |names|)
    ensures forall k :: 0 <= k <= |names| ==> (names + [name])[k] == ColumnName(labels, kinds, k)
  {
  }

  /** The loop of `clean_csv` that builds `new_columns`, carrying `current_disease` along. */
  method BuildHeaderNames(disease: seq<Cell>, types: seq<Cell>) returns (names: seq<string>)
    requires |types| == |disease|
    ensures names == HeaderNames(disease, types)
  {
    ghost var labels, kinds := Texts(disease), Texts(types);
    names := [];
    var current := "";
    for i := 0 to |disease|
      invariant |names| == i
      invariant forall k :: 0 <= k < i ==> names[k] == ColumnName(labels, kinds, k)
      invariant current == if i == 0 then "" else LastLabel(labels, i - 1)
    {
      var name;
      if i == 0 {
        name := RegionColumn;
      } else {
        var diseaseText, reportType := StrippedText(disease[i]), StrippedText(types[i]);
        if diseaseText != "" {
          current := diseaseText;
        }
        assert current == LastLabel(labels, i);
        if reportType != "" {
          if current != "" {
            name := current + "_" + reportType;
          } else {
            name := reportType;
          }
        } else {
          name := "column_" + IntToString(i);
        }
      }
      assert name == ColumnName(labels, kinds, i);
      AppendName(names, name, labels, kinds);
      names := names + [name];
    }
  }

  /** Why the standard branch of `clean_csv` returns False. */
  datatype StandardError =
    | RowMissing(row: nat)             // `df.iloc[2]` or `df.iloc[3]` past the end: IndexError
    | ColumnExists(name: string)       // `insert` of 年 or 週 when the sheet already has it: ValueError

  /** The data rows relabelled, before the file-name columns are added. */
  function Relabelled(grid: seq<seq<Cell>>): (f: Frame)
    requires IsGrid(grid) && |grid| >= 4
    ensures Rectangular(f) && |f.columns| == |grid[0]| && f.rows == grid[4..]
  {
    Frame(HeaderNames(grid[2], grid[3]), grid[4..])
  }

  /** What the standard branch produces from a grid and the stem of its file name. */
  function Standard(grid: seq<seq<Cell>>, stem: string): Result<Frame, StandardError>
    requires IsGrid(grid)
  {
    if |grid| < 4 then Err(RowMissing(if |grid| < 3 then 2 else 3))
    else
      var data := Relabelled(grid);
      var parts := Split(stem, '-');
      if |parts| < 2 then Ok(data)
      else match Insert(data, 0, YearColumn, parts[0])
        case Err(e) => Err(ColumnExists(YearColumn))
        case Ok(withYear) =>
          match Insert(withYear, 1, WeekColumn, parts[1])
          case Err(e) => Err(ColumnExists(WeekColumn))
          case Ok(withWeek) => Ok(withWeek)
  }

  /** The standard branch of `clean_csv`, as the source runs it. */
  method NormaliseStandard(grid: seq<seq<Cell>>, stem: string) returns (r: Result<Frame, StandardError>)
    requires IsGrid(grid)
    ensures r == Standard(grid, stem)
  {
    if |grid| < 4 {
      return Err(RowMissing(if |grid| < 3 then 2 else 3));
    }
    var names := BuildHeaderNames(grid[2], grid[3]);
    var data := Frame(names, grid[4..]);
    var parts := Split(stem, '-');
    if |parts| >= 2 {
      var withYear := Insert(data, 0, YearColumn, parts[0]);
      if withYear.Err? {
        return Err(ColumnExists(YearColumn));
      }
      var withWeek := Insert(withYear.value, 1, WeekColumn, parts[1]);
      if withWeek.Err? {
        return Err(ColumnExists(WeekColumn));
      }
      data := withWeek.value;
    }
    r := Ok(data);
  }

  /**
   * The standard branch fails exactly when the grid lacks row 3, or when the sheet's
   * own names already hold 年 or 週 and the file name has the two parts to insert.
   */
  lemma StandardFails(grid: seq<seq<Cell>>, stem: string)
    requires IsGrid(grid)
    ensures Standard(grid, stem).Err? <==>
      |grid| < 4 || (|Split(stem, '-')| >= 2 && (YearColumn in HeaderNames(grid[2], grid[3]) || WeekColumn in HeaderNames(grid[2], grid[3])))
  {
    if |grid| >= 4 && |Split(stem, '-')| >= 2 {
      var data := Relabelled(grid);
      var parts := Split(stem, '-');
      if YearColumn !in data.columns {
        var withYear := Insert(data, 0, YearColumn, parts[0]).value;
        assert WeekColumn in withYear.columns <==> WeekColumn in data.columns;
      }
    }
  }

  /**
   * On success the output is grid rows 4.. in order; when the file name has two parts,
   * each row is led by the year and week text from it and the columns by 年 and 週.
   */
  lemma StandardRows(grid: seq<seq<Cell>>, stem: string)
    requires IsGrid(grid) && Standard(grid, stem).Ok?
    ensures |grid| >= 4
    ensures var f := Standard(grid, stem).value;
            var parts := Split(stem, '-');
            var names := HeaderNames(grid[2], grid[3]);
            && |f.rows| == |grid| - 4
            && (|parts| < 2 ==> f.columns == names && f.rows == grid[4..])
            && (|parts| >= 2 ==>
                  && f.columns == [YearColumn, WeekColumn] + names
                  && forall i :: 0 <= i < |f.rows| ==> f.rows[i] == [Some(parts[0]), Some(parts[1])] + grid[4 + i])
  {
    var parts := Split(stem, '-');
    if |parts| >= 2 {
      var data := Relabelled(grid);
      var withYear := Insert(data, 0, YearColumn, parts[0]).value;
      var withWeek := Insert(withYear, 1, WeekColumn, parts[1]).value;
      assert withWeek.columns == [YearColumn, WeekColumn] + data.columns;
      forall i | 0 <= i < |withWeek.rows|
        ensures withWeek.rows[i] == [Some(parts[0]), Some(parts[1])] + grid[4 + i]
      {
        assert withYear.rows[i] == [Some(parts[0])] + grid[4 + i];
      }
    }
  }

  /** The sheet keeps one name per grid column, the first being the region label. */
  lemma HeaderShape(grid: seq<seq<Cell>>)
    requires IsGrid(grid) && |grid| >= 4 && |grid[0]| >= 1
    ensures var names := HeaderNames(grid[2], grid[3]);
            |names| == |grid[0]| && names[0] == RegionColumn
  {
  }

  lemma ExampleLabels(d: seq<Cell>)
    requires d == [None, Some("A"), None, Some("B"), None]
    ensures Texts(d) == ["", "A", "", "B", ""]
  {
    StripsTo(d[1], "A");
    StripsTo(d[3], "B");
  }

  lemma ExampleKinds(t: seq<Cell>)
    requires t == [Some("県"), Some("報告"), Some("累積"), Some("報告"), Some("累積")]
    ensures Texts(t) == ["県", "報告", "累積", "報告", "累積"]
  {
    StripsTo(t[0], "県");
    StripsTo(t[1], "報告");
    StripsTo(t[2], "累積");
  }

  lemma ExampleNames(labels: seq<string>, kinds: seq<string>)
    requires labels == ["", "A", "", "B", ""] && kinds == ["県", "報告", "累積", "報告", "累積"]
    ensures ColumnName(labels, kinds, 0) == RegionColumn
    ensures ColumnName(labels, kinds, 1) == "A_報告" && ColumnName(labels, kinds, 2) == "A_累積"
    ensures ColumnName(labels, kinds, 3) == "B_報告" && ColumnName(labels, kinds, 4) == "B_累積"
  {
    assert LastLabel(labels, 2) == "A" && LastLabel(labels, 4) == "B";
  }

  /**
   * Disease labels at columns 1 and 3 only, a report type under every column: columns
   * 2 and 4 take the labels of columns 1 and 3.
   */
  lemma ForwardFillExample(d: seq<Cell>, t: seq<Cell>)
    requires d == [None, Some("A"), None, Some("B"), None]
    requires t == [Some("県"), Some("報告"), Some("累積"), Some("報告"), Some("累積")]
    ensures HeaderNames(d, t) == [RegionColumn, "A_報告", "A_累積", "B_報告", "B_累積"]
  {
    ExampleLabels(d);
    ExampleKinds(t);
    ExampleNames(Texts(d), Texts(t));
    FiveNames(HeaderNames(d, t), RegionColumn, "A_報告", "A_累積", "B_報告", "B_累積");
  }

  /** A sequence of five names, known one by one. */
  lemma FiveNames(s: seq<string>, a: string, b: string, c: string, d: string, e: string)
    requires |s| == 5 && s[0] == a && s[1] == b && s[2] == c && s[3] == d && s[4] == e
    ensures s == [a, b, c, d, e]
  {
  }
}
