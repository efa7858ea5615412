/**
 * The trend branch of `clean_csv`: a top-to-bottom scan of the trend sheet that keeps
 * the disease in force and its week columns, skips banner and comment rows, adopts a
 * new disease when a disease row is followed by a week header, and turns every year
 * row under a disease into one record.
 */
module TrendReshaper {
  import opened Wrappers
  import opened Text
  import opened Records
  import opened Tables

  const ReportYearKey := "報告年"
  const ReportWeekKey := "報告週"
  const DiseaseKey := "疾病"
  const YearKey := "年"

  /** The columns of the table written when the sheet yields no record. */
  const IdentityColumns := [ReportYearKey, ReportWeekKey, DiseaseKey, YearKey]

  /** One entry of `week_columns`: a grid column and the week number read from its header. */
  datatype WeekColumn = WeekColumn(col: nat, week: string)

  /** The scan state: `current_disease` ("" while unset, which Python treats alike) and `week_columns`. */
  datatype Context = Context(disease: string, weeks: seq<WeekColumn>)

  const NoContext := Context("", [])

  /** Why the trend branch of `clean_csv` returns False. */
  datatype TrendError =
    | StemTooShort                      // `filename_parts[1]` on a stem without '-': IndexError
    | CellMissing(row: nat, col: nat)   // `row.iloc[col]` past the sheet's width: IndexError
    | BadYear(row: nat, text: string)   // `int(year_str)` of a two-character non-number: ValueError

  // ---------------------------------------------------------------------
  // Row classification
  // ---------------------------------------------------------------------

  /** `str(row.iloc[0])` for a present first cell, "" for a missing one. */
  function FirstText(row: seq<Cell>): string
    requires |row| >= 1
  {
    if row[0].Some? then row[0].value else ""
  }

  /**
   * Blank rows, notes (注), the column header (疾病) and year-range banners (年〜, 年～)
   * are skipped; `SkipTestsAsWritten` ties the character tests to `startswith` and `in`.
   */
  predicate IsSkipped(first: string) {
    || first == ""
    || first[0] == '注'
    || (|first| >= 2 && first[0] == '疾' && first[1] == '病')
    || Contains(first, "年〜")
    || Contains(first, "年～")
  }

  /** `first.endswith("年")`. */
  predicate EndsWithYear(first: string) {
    |first| >= 1 && first[|first| - 1] == '年'
  }

  lemma SkipTestsAsWritten(first: string)
    ensures IsSkipped(first) <==>
      || first == ""
      || StartsWith(first, "注")
      || StartsWith(first, "疾病")
      || Contains(first, "年〜")
      || Contains(first, "年～")
    ensures EndsWithYear(first) <==> EndsWith(first, "年")
  {
    if |first| >= 2 {
      assert first[..2] == "疾病" <==> first[0] == '疾' && first[1] == '病';
    }
  }

  /** A week header cell: present and containing 週. */
  predicate IsWeekCell(c: Cell) {
    c.Some? && '週' in c.value
  }

  /** The bare week number of a header cell: 週 removed, then stripped. */
  function WeekNumber(c: Cell): string
    requires c.Some?
  {
    Strip(RemoveAll(c.value, '週'))
  }

  /** The week columns of a header row from column `col` on, left to right. */
  function WeekColumnsFrom(row: seq<Cell>, col: nat): seq<WeekColumn>
    requires 1 <= col <= |row|
    decreases |row| - col
  {
    if col == |row| then []
    else
      var rest := WeekColumnsFrom(row, col + 1);
      if IsWeekCell(row[col]) then [WeekColumn(col, WeekNumber(row[col]))] + rest else rest
  }

  /** `week_columns` as rebuilt from a week header row: columns 1.. whose cell holds 週. */
  function WeekColumns(row: seq<Cell>): seq<WeekColumn> {
    if |row| == 0 then [] else WeekColumnsFrom(row, 1)
  }

  /** Every entry names a week cell at or after `from`, with the week number read from it. */
  ghost predicate EntriesAreWeekCells(row: seq<Cell>, ws: seq<WeekColumn>, from: nat) {
    forall k :: 0 <= k < |ws| ==>
      from <= ws[k].col < |row| && IsWeekCell(row[ws[k].col]) && ws[k].week == WeekNumber(row[ws[k].col])
  }

  /** The entries are in strictly increasing column order. */
  ghost predicate ColumnsIncrease(ws: seq<WeekColumn>) {
    forall k, m :: 0 <= k < m < |ws| ==> ws[k].col < ws[m].col
  }

  /** Every entry lies at or after column `from`. */
  ghost predicate ColumnsFrom(ws: seq<WeekColumn>, from: nat) {
    forall k :: 0 <= k < |ws| ==> from <= ws[k].col
  }

  /** Every week cell at or after `from` has an entry. */
  ghost predicate CoversWeekCells(row: seq<Cell>, ws: seq<WeekColumn>, from: nat) {
    forall c :: from <= c < |row| && IsWeekCell(row[c]) ==> exists k :: 0 <= k < |ws| && ws[k].col == c
  }

  /** One step of `WeekColumnsFrom`: the entry for column `col`, if any, comes before the rest. */
  lemma WeekColumnsFromStep(row: seq<Cell>, col: nat)
    requires 1 <= col < |row|
    ensures WeekColumnsFrom(row, col) ==
      (if IsWeekCell(row[col]) then [WeekColumn(col, WeekNumber(row[col]))] else []) + WeekColumnsFrom(row, col + 1)
  {
    if !IsWeekCell(row[col]) {
      assert [] + WeekColumnsFrom(row, col + 1) == WeekColumnsFrom(row, col + 1);
    }
  }

  /** An entry for a week cell at `col`, put before entries from `col + 1` on, keeps every entry a week cell. */
  lemma ConsEntries(row: seq<Cell>, col: nat, w: WeekColumn, rest: seq<WeekColumn>)
    requires w.col == col < |row| && IsWeekCell(row[col]) && w.week == WeekNumber(row[col])
    requires EntriesAreWeekCells(row, rest, col + 1)
    ensures EntriesAreWeekCells(row, [w] + rest, col)
  {
    var ws := [w] + rest;
    forall k | 0 <= k < |ws|
      ensures col <= ws[k].col < |row| && IsWeekCell(row[ws[k].col]) && ws[k].week == WeekNumber(row[ws[k].col])
    {
      if k > 0 {
        assert ws[k] == rest[k - 1];
      }
    }
  }

  lemma {:induction false} WeekColumnsFromEntries(row: seq<Cell>, col: nat)
    requires 1 <= col <= |row|
    ensures EntriesAreWeekCells(row, WeekColumnsFrom(row, col), col)
    decreases |row| - col
  {
    if col < |row| {
      WeekColumnsFromEntries(row, col + 1);
      WeekColumnsFromStep(row, col);
      if IsWeekCell(row[col]) {
        ConsEntries(row, col, WeekColumn(col, WeekNumber(row[col])), WeekColumnsFrom(row, col + 1));
      }
    }
  }

  /** An entry at `col`, put before increasing entries from `col + 1` on, keeps them increasing and from `col` on. */
  lemma ConsIncrease(col: nat, w: WeekColumn, rest: seq<WeekColumn>)
    requires w.col == col && ColumnsIncrease(rest) && ColumnsFrom(rest, col + 1)
    ensures ColumnsIncrease([w] + rest) && ColumnsFrom([w] + rest, col)
  {
    var ws := [w] + rest;
    forall k | 1 <= k < |ws| ensures ws[k] == rest[k - 1] { }
  }

  lemma {:induction false} WeekColumnsFromIncrease(row: seq<Cell>, col: nat)
    requires 1 <= col <= |row|
    ensures ColumnsIncrease(WeekColumnsFrom(row, col)) && ColumnsFrom(WeekColumnsFrom(row, col), col)
    decreases |row| - col
  {
    if col < |row| {
      WeekColumnsFromIncrease(row, col + 1);
      WeekColumnsFromStep(row, col);
      if IsWeekCell(row[col]) {
        ConsIncrease(col, WeekColumn(col, WeekNumber(row[col])), WeekColumnsFrom(row, col + 1));
      }
    }
  }

  /** An entry for the week cell at `col`, put before entries covering the week cells after it, covers them from `col` on. */
  lemma ConsCover(row: seq<Cell>, col: nat, w: WeekColumn, rest: seq<WeekColumn>)
    requires w.col == col < |row| && CoversWeekCells(row, rest, col + 1)
    ensures CoversWeekCells(row, [w] + rest, col)
  {
    var ws := [w] + rest;
    forall c | col <= c < |row| && IsWeekCell(row[c]) ensures exists k :: 0 <= k < |ws| && ws[k].col == c {
      if c > col {
        var k :| 0 <= k < |rest| && rest[k].col == c;
        assert ws[k + 1].col == c;
      } else {
        assert ws[0].col == c;
      }
    }
  }

  /** Entries covering the week cells after a column that is not a week cell cover them from that column on. */
  lemma SkipCover(row: seq<Cell>, col: nat, rest: seq<WeekColumn>)
    requires col < |row| && !IsWeekCell(row[col]) && CoversWeekCells(row, rest, col + 1)
    ensures CoversWeekCells(row, rest, col)
  {
    forall c | col <= c < |row| && IsWeekCell(row[c]) ensures exists k :: 0 <= k < |rest| && rest[k].col == c {
      assert c != col;
    }
  }

  lemma {:induction false} WeekColumnsFromCover(row: seq<Cell>, col: nat)
    requires 1 <= col <= |row|
    ensures CoversWeekCells(row, WeekColumnsFrom(row, col), col)
    decreases |row| - col
  {
    if col < |row| {
      WeekColumnsFromCover(row, col + 1);
      WeekColumnsFromStep(row, col);
      if IsWeekCell(row[col]) {
        ConsCover(row, col, WeekColumn(col, WeekNumber(row[col])), WeekColumnsFrom(row, col + 1));
      } else {
        SkipCover(row, col, WeekColumnsFrom(row, col + 1));
      }
    }
  }

  /**
   * The week columns are exactly the columns 1.. whose cell holds 週, in increasing
   * column order, each with the week number read from its cell.
   */
  lemma WeekColumnsMeaning(row: seq<Cell>)
    requires |row| >= 1
    ensures var ws := WeekColumns(row);
      && (forall k :: 0 <= k < |ws| ==> 1 <= ws[k].col < |row| && IsWeekCell(row[ws[k].col]) && ws[k].week == WeekNumber(row[ws[k].col]))
      && (forall k, m :: 0 <= k < m < |ws| ==> ws[k].col < ws[m].col)
      && (forall c :: 1 <= c < |row| && IsWeekCell(row[c]) ==> exists k :: 0 <= k < |ws| && ws[k].col == c)
  {
    WeekColumnsFromEntries(row, 1);
    WeekColumnsFromIncrease(row, 1);
    WeekColumnsFromCover(row, 1);
    assert WeekColumns(row) == WeekColumnsFrom(row, 1);
  }

  /** Moving the head of the rest onto the part already built keeps the whole. */
  lemma AppendShift<T>(done: seq<T>, head: seq<T>, rest: seq<T>)
    ensures done + (head + rest) == (done + head) + rest
  {
  }

  /** The loop of `clean_csv` that rebuilds `week_columns` from the week header row. */
  method ExtractWeekColumns(row: seq<Cell>) returns (weeks: seq<WeekColumn>)
    ensures weeks == WeekColumns(row)
  {
    weeks := [];
    if |row| == 0 {
      return;
    }
    for col := 1 to |row|
      invariant WeekColumns(row) == weeks + WeekColumnsFrom(row, col)
    {
      WeekColumnsFromStep(row, col);
      var value := row[col];
      if value.Some? && '週' in value.value {
        var weekNum := Strip(RemoveAll(value.value, '週'));
        AppendShift(weeks, [WeekColumn(col, weekNum)], WeekColumnsFrom(row, col + 1));
        weeks := weeks + [WeekColumn(col, weekNum)];
      }
    }
  }

  // ---------------------------------------------------------------------
  // Records
  // ---------------------------------------------------------------------

  /**
   * A two-character year is read with `int()` and widened with a pivot at 50: below 50
   * into the 2000s, otherwise into the 1900s; a year of any other length is kept.
   */
  function ExpandYear(ys: string): Result<string, string>
  {
    if |ys| == 2 then
      match PyInt(ys)
      case None => Err(ys)
      case Some(v) => Ok(if v < 50 then "20" + ys else "19" + ys)
    else Ok(ys)
  }

  /** A week cell as written to the record: stripped, or "" when missing, blank or exactly "-". */
  function WeekValue(c: Cell): string {
    if HasText(c) && c.value != "-" then StrippedText(c) else ""
  }

  /** The record's leading fields, as the dictionary literal lays them out. */
  function BaseRecord(reportYear: string, reportWeek: string, disease: string, year: string): (r: Record<string>)
    ensures ValidRecord(r) && r.keys == IdentityColumns
  {
    Record(IdentityColumns, map[ReportYearKey := reportYear, ReportWeekKey := reportWeek, DiseaseKey := disease, YearKey := year])
  }

  /** One week field set on the record, when its column lies within the row. */
  function AddWeek(r: Record<string>, w: WeekColumn, row: seq<Cell>): (r': Record<string>)
    requires ValidRecord(r)
    ensures ValidRecord(r')
  {
    if w.col < |row| then Put(r, w.week + "週", WeekValue(row[w.col])) else r
  }

  /** The week fields set one after another, left to right. */
  function AddWeeks(r: Record<string>, weeks: seq<WeekColumn>, row: seq<Cell>): (r': Record<string>)
    requires ValidRecord(r)
    ensures ValidRecord(r')
    decreases |weeks|
  {
    if |weeks| == 0 then r else AddWeeks(AddWeek(r, weeks[0], row), weeks[1..], row)
  }

  /** The `row_data` dictionary of one data row. */
  function RecordFor(reportYear: string, reportWeek: string, disease: string, year: string,
                     weeks: seq<WeekColumn>, row: seq<Cell>): (r: Record<string>)
    ensures ValidRecord(r)
  {
    AddWeeks(BaseRecord(reportYear, reportWeek, disease, year), weeks, row)
  }

  /** The loop of `clean_csv` that adds the week fields to `row_data`. */
  method BuildRecord(reportYear: string, reportWeek: string, disease: string, year: string,
                     weeks: seq<WeekColumn>, row: seq<Cell>) returns (r: Record<string>)
    ensures r == RecordFor(reportYear, reportWeek, disease, year, weeks, row)
  {
    r := BaseRecord(reportYear, reportWeek, disease, year);
    for k := 0 to |weeks|
      invariant ValidRecord(r)
      invariant AddWeeks(r, weeks[k..], row) == RecordFor(reportYear, reportWeek, disease, year, weeks, row)
    {
      assert weeks[k..][1..] == weeks[k + 1..];
      var w := weeks[k];
      if w.col < |row| {
        var value := row[w.col];
        if HasText(value) && value.value != "-" {
          r := Put(r, w.week + "週", StrippedText(value));
        } else {
          r := Put(r, w.week + "週", "");
        }
      }
    }
  }

  /** Adding week fields keeps the keys already there, first and in order. */
  lemma {:induction false} AddWeeksKeepsPrefix(r: Record<string>, weeks: seq<WeekColumn>, row: seq<Cell>)
    requires ValidRecord(r)
    ensures var r' := AddWeeks(r, weeks, row);
      |r.keys| <= |r'.keys| && r'.keys[..|r.keys|] == r.keys
    decreases |weeks|
  {
    if |weeks| > 0 {
      AddWeeksKeepsPrefix(AddWeek(r, weeks[0], row), weeks[1..], row);
      PrefixOfPrefix(r.keys, AddWeek(r, weeks[0], row).keys, AddWeeks(r, weeks, row).keys);
    }
  }

  /** A prefix of a prefix is a prefix. */
  lemma PrefixOfPrefix<T>(a: seq<T>, b: seq<T>, c: seq<T>)
    requires |a| <= |b| <= |c| && b[..|a|] == a && c[..|b|] == b
    ensures c[..|a|] == a
  {
    assert c[..|a|] == c[..|b|][..|a|];
  }

  /** Adding week fields changes only keys ending in 週. */
  lemma {:induction false} AddWeeksKeepsOthers(r: Record<string>, weeks: seq<WeekColumn>, row: seq<Cell>, key: string)
    requires ValidRecord(r) && !EndsWith(key, "週")
    ensures (key in AddWeeks(r, weeks, row).values <==> key in r.values)
    ensures key in r.values ==> AddWeeks(r, weeks, row).values[key] == r.values[key]
    decreases |weeks|
  {
    if |weeks| > 0 {
      var k := weeks[0].week + "週";
      assert EndsWith(k, "週");
      AddWeeksKeepsOthers(AddWeek(r, weeks[0], row), weeks[1..], row, key);
    }
  }

  /**
   * After the week fields are set, the field of week column `j` holds that column's
   * cell, unless a later week column has the same week number and overwrote it.
   */
  lemma {:induction false} AddWeeksLastWins(r: Record<string>, weeks: seq<WeekColumn>, row: seq<Cell>, j: nat)
    requires ValidRecord(r) && j < |weeks| && weeks[j].col < |row|
    requires forall m :: j < m < |weeks| ==> weeks[m].week != weeks[j].week
    ensures var key := weeks[j].week + "週";
      key in AddWeeks(r, weeks, row).values && AddWeeks(r, weeks, row).values[key] == WeekValue(row[weeks[j].col])
    decreases |weeks|
  {
    var next := AddWeek(r, weeks[0], row);
    if j == 0 {
      AddWeeksUntouched(next, weeks[1..], row, weeks[0].week);
    } else {
      AddWeeksLastWins(next, weeks[1..], row, j - 1);
    }
  }

  /** A week field's key gives back its week number. */
  lemma WeekKeyPrefix(week: string)
    ensures |week + "週"| == |week| + 1 && (week + "週")[..|week|] == week
  {
  }

  /** Week fields for other week numbers leave a field alone. */
  lemma {:induction false} AddWeeksUntouched(r: Record<string>, weeks: seq<WeekColumn>, row: seq<Cell>, week: string)
    requires ValidRecord(r) && week + "週" in r.values
    requires forall m :: 0 <= m < |weeks| ==> weeks[m].week != week
    ensures week + "週" in AddWeeks(r, weeks, row).values
    ensures AddWeeks(r, weeks, row).values[week + "週"] == r.values[week + "週"]
    decreases |weeks|
  {
    if |weeks| > 0 {
      WeekKeyPrefix(weeks[0].week);
      WeekKeyPrefix(week);
      AddWeeksUntouched(AddWeek(r, weeks[0], row), weeks[1..], row, week);
    }
  }

  /** Week columns none of whose keys is 報告週 leave the report week alone. */
  lemma ReportWeekKept(r: Record<string>, weeks: seq<WeekColumn>, row: seq<Cell>)
    requires ValidRecord(r) && ReportWeekKey in r.values
    ensures (forall j :: 0 <= j < |weeks| ==> weeks[j].week + "週" != ReportWeekKey) ==>
      ReportWeekKey in AddWeeks(r, weeks, row).values && AddWeeks(r, weeks, row).values[ReportWeekKey] == r.values[ReportWeekKey]
  {
    if forall j :: 0 <= j < |weeks| ==> weeks[j].week + "週" != ReportWeekKey {
      assert "報告" + "週" == ReportWeekKey;
      AddWeeksUntouched(r, weeks, row, "報告");
    }
  }

  /**
   * A record starts with 報告年, 報告週, 疾病 and 年; 報告年, 疾病 and 年 hold the report
   * year, the disease and the year; 報告週 holds the report week unless a week column
   * whose key is also 報告週 (week number 報告) overwrote it; and every week column within
   * the row whose week number does not recur further right holds its normalised cell.
   */
  lemma RecordForMeaning(reportYear: string, reportWeek: string, disease: string, year: string,
                         weeks: seq<WeekColumn>, row: seq<Cell>)
    ensures var r := RecordFor(reportYear, reportWeek, disease, year, weeks, row);
      && |r.keys| >= 4 && r.keys[..4] == IdentityColumns
      && ReportYearKey in r.values && r.values[ReportYearKey] == reportYear
      && DiseaseKey in r.values && r.values[DiseaseKey] == disease
      && YearKey in r.values && r.values[YearKey] == year
    ensures var r := RecordFor(reportYear, reportWeek, disease, year, weeks, row);
      (forall j :: 0 <= j < |weeks| ==> weeks[j].week + "週" != ReportWeekKey) ==>
        ReportWeekKey in r.values && r.values[ReportWeekKey] == reportWeek
    ensures var r := RecordFor(reportYear, reportWeek, disease, year, weeks, row);
      forall j :: 0 <= j < |weeks| && weeks[j].col < |row| && (forall m :: j < m < |weeks| ==> weeks[m].week != weeks[j].week) ==>
        weeks[j].week + "週" in r.values && r.values[weeks[j].week + "週"] == WeekValue(row[weeks[j].col])
  {
    var base := BaseRecord(reportYear, reportWeek, disease, year);
    AddWeeksKeepsPrefix(base, weeks, row);
    AddWeeksKeepsOthers(base, weeks, row, ReportYearKey);
    AddWeeksKeepsOthers(base, weeks, row, DiseaseKey);
    AddWeeksKeepsOthers(base, weeks, row, YearKey);
    ReportWeekKept(base, weeks, row);
    forall j | 0 <= j < |weeks| && weeks[j].col < |row| && (forall m :: j < m < |weeks| ==> weeks[m].week != weeks[j].week)
      ensures weeks[j].week + "週" in RecordFor(reportYear, reportWeek, disease, year, weeks, row).values
      ensures RecordFor(reportYear, reportWeek, disease, year, weeks, row).values[weeks[j].week + "週"] == WeekValue(row[weeks[j].col])
    {
      AddWeeksLastWins(base, weeks, row, j);
    }
  }

  // ---------------------------------------------------------------------
  // The scan
  // ---------------------------------------------------------------------

  /** What one row does: the state after it, and the record it emits, if any. */
  datatype Outcome = Outcome(ctx: Context, emitted: Option<Record<string>>)

  /** The row at `idx` is a disease row: not skipped, not a year, and no 週 in its second cell. */
  predicate IsDiseaseRow(grid: seq<seq<Cell>>, idx: nat)
    requires idx < |grid|
  {
    |grid[idx]| >= 2 && !IsSkipped(FirstText(grid[idx])) && !EndsWithYear(FirstText(grid[idx]))
    && '週' !in CellText(grid[idx][1])
  }

  /** The row after `idx` is a week header, so the disease row at `idx` is adopted. */
  predicate NextIsWeekHeader(grid: seq<seq<Cell>>, idx: nat)
    requires IsGrid(grid) && idx < |grid| && |grid[idx]| >= 2
  {
    idx + 1 < |grid| && IsWeekCell(grid[idx + 1][1])
  }

  /** The row at `idx` is a year row: not skipped and ending in 年. */
  predicate IsYearRow(grid: seq<seq<Cell>>, idx: nat)
    requires idx < |grid|
  {
    |grid[idx]| >= 1 && !IsSkipped(FirstText(grid[idx])) && EndsWithYear(FirstText(grid[idx]))
  }

  /** The year text of a year row: 年 removed, then stripped. */
  function YearText(first: string): string {
    Strip(RemoveAll(first, '年'))
  }

  /** One pass of the loop body of the trend branch. */
  function Step(grid: seq<seq<Cell>>, idx: nat, ctx: Context, reportYear: string, reportWeek: string): (r: Result<Outcome, TrendError>)
    requires IsGrid(grid) && idx < |grid|
  {
    var row := grid[idx];
    if |row| == 0 then Err(CellMissing(idx, 0))
    else
      var first := FirstText(row);
      if IsSkipped(first) then Ok(Outcome(ctx, None))
      else if !EndsWithYear(first) then
        if |row| < 2 then Err(CellMissing(idx, 1))
        else if '週' in CellText(row[1]) then Ok(Outcome(ctx, None))
        else if NextIsWeekHeader(grid, idx) then Ok(Outcome(Context(Strip(first), WeekColumns(grid[idx + 1])), None))
        else Ok(Outcome(ctx, None))
      else if ctx.disease != "" && |ctx.weeks| > 0 then
        match ExpandYear(YearText(first))
        case Err(text) => Err(BadYear(idx, text))
        case Ok(year) => Ok(Outcome(ctx, Some(RecordFor(reportYear, reportWeek, ctx.disease, year, ctx.weeks, row))))
      else Ok(Outcome(ctx, None))
  }

  /** The record a row emits, as a sequence of zero or one. */
  function Emitted(o: Outcome): seq<Record<string>> {
    if o.emitted.Some? then [o.emitted.value] else []
  }

  /** The loop body as a function of the row index and the state. */
  type Stepper = (nat, Context) -> Result<Outcome, TrendError>

  /** `Step` on the rows of a grid; an index past the grid changes nothing. */
  function RowStep(grid: seq<seq<Cell>>, reportYear: string, reportWeek: string): Stepper
    requires IsGrid(grid)
  {
    (i: nat, c: Context) => if i < |grid| then Step(grid, i, c, reportYear, reportWeek) else Ok(Outcome(c, None))
  }

  /**
   * The loop over rows `idx` to `n` - 1 with state `ctx` and the records `acc` emitted
   * so far: it stops at the first failing row, and otherwise appends what each row emits.
   */
  function Run(n: nat, idx: nat, step: Stepper, ctx: Context, acc: seq<Record<string>>): (r: Result<seq<Record<string>>, TrendError>)
    requires idx <= n
    ensures r.Ok? ==> |acc| <= |r.value| && r.value[..|acc|] == acc
    decreases n - idx
  {
    if idx == n then Ok(acc)
    else match step(idx, ctx)
      case Err(e) => Err(e)
      case Ok(o) => Run(n, idx + 1, step, o.ctx, acc + Emitted(o))
  }

  /** The scan of a grid from row `idx` on. */
  function Scan(grid: seq<seq<Cell>>, idx: nat, ctx: Context, acc: seq<Record<string>>,
                reportYear: string, reportWeek: string): Result<seq<Record<string>>, TrendError>
    requires IsGrid(grid) && idx <= |grid|
  {
    Run(|grid|, idx, RowStep(grid, reportYear, reportWeek), ctx, acc)
  }

  /** One row of the scan: a failing step stops it, otherwise it goes on with the new state. */
  lemma ScanStep(grid: seq<seq<Cell>>, idx: nat, ctx: Context, acc: seq<Record<string>>,
                 reportYear: string, reportWeek: string)
    requires IsGrid(grid) && idx < |grid|
    ensures Scan(grid, idx, ctx, acc, reportYear, reportWeek) ==
      match Step(grid, idx, ctx, reportYear, reportWeek)
      case Err(e) => Err(e)
      case Ok(o) => Scan(grid, idx + 1, o.ctx, acc + Emitted(o), reportYear, reportWeek)
  {
  }

  /** The table the trend branch writes: the records, or the four identity columns alone. */
  function TableOf(records: seq<Record<string>>): Frame {
    if |records| > 0 then FromRecords(records) else Frame(IdentityColumns, [])
  }

  /** A record with distinct keys led by the four identity fields, in order. */
  ghost predicate IdentityLed(rec: Record<string>) {
    ValidRecord(rec) && |rec.keys| >= 4 && rec.keys[..4] == IdentityColumns
  }

  /** The table's columns start with the identity columns when every record does. */
  lemma TableOfLeads(records: seq<Record<string>>)
    requires forall k :: 0 <= k < |records| ==> IdentityLed(records[k])
    ensures var f := TableOf(records); |f.columns| >= 4 && f.columns[..4] == IdentityColumns
  {
    if |records| > 0 {
      var css := seq(|records|, k requires 0 <= k < |records| => records[k].keys);
      assert css[0] == records[0].keys;
      UnionColumnsLeads(css);
      var u := UnionColumns(css);
      assert u[..4] == u[..|css[0]|][..4];
    }
  }

  /** What the trend branch produces from a grid and the stem of its file name. */
  function Trend(grid: seq<seq<Cell>>, stem: string): Result<Frame, TrendError>
    requires IsGrid(grid)
  {
    var parts := Split(stem, '-');
    if |parts| < 2 then Err(StemTooShort)
    else match Scan(grid, 0, NoContext, [], parts[0], parts[1])
      case Err(e) => Err(e)
      case Ok(records) => Ok(TableOf(records))
  }

  /** The loop body of the trend branch on row `idx`, with the disease and week columns in force. */
  method ScanRow(grid: seq<seq<Cell>>, idx: nat, disease: string, weekColumns: seq<WeekColumn>,
                 reportYear: string, reportWeek: string) returns (r: Result<Outcome, TrendError>)
    requires IsGrid(grid) && idx < |grid|
    ensures r == Step(grid, idx, Context(disease, weekColumns), reportYear, reportWeek)
  {
    var row := grid[idx];
    if |row| == 0 {
      return Err(CellMissing(idx, 0));
    }
    var first := if row[0].Some? then row[0].value else "";
    if IsSkipped(first) {
      return Ok(Outcome(Context(disease, weekColumns), None));
    }
    if !EndsWithYear(first) {
      r := HeaderRow(grid, idx, first, disease, weekColumns);
      return;
    }
    if disease != "" && |weekColumns| > 0 {
      r := YearRow(grid, idx, first, disease, weekColumns, reportYear, reportWeek);
    } else {
      r := Ok(Outcome(Context(disease, weekColumns), None));
    }
  }

  /** A row that is neither skipped nor a year: a disease row is adopted when a week header follows. */
  method HeaderRow(grid: seq<seq<Cell>>, idx: nat, first: string, disease: string, weekColumns: seq<WeekColumn>)
    returns (r: Result<Outcome, TrendError>)
    requires IsGrid(grid) && idx < |grid| && |grid[idx]| >= 1 && first == FirstText(grid[idx])
    requires !IsSkipped(first) && !EndsWithYear(first)
    ensures r == Step(grid, idx, Context(disease, weekColumns), "", "")
  {
    var row := grid[idx];
    if |row| < 2 {
      return Err(CellMissing(idx, 1));
    }
    r := Ok(Outcome(Context(disease, weekColumns), None));
    if '週' !in CellText(row[1]) && idx + 1 < |grid| {
      var nextRow := grid[idx + 1];
      if nextRow[1].Some? && '週' in nextRow[1].value {
        var weeks := ExtractWeekColumns(nextRow);
        r := Ok(Outcome(Context(Strip(first), weeks), None));
      }
    }
  }

  /** A year row under a disease with week columns: the year widened and the record built. */
  method YearRow(grid: seq<seq<Cell>>, idx: nat, first: string, disease: string, weekColumns: seq<WeekColumn>,
                 reportYear: string, reportWeek: string) returns (r: Result<Outcome, TrendError>)
    requires IsGrid(grid) && idx < |grid| && |grid[idx]| >= 1 && first == FirstText(grid[idx])
    requires !IsSkipped(first) && EndsWithYear(first) && disease != "" && |weekColumns| > 0
    ensures r == Step(grid, idx, Context(disease, weekColumns), reportYear, reportWeek)
  {
    var yearStr := Strip(RemoveAll(first, '年'));
    var year := yearStr;
    if |yearStr| == 2 {
      var v := PyInt(yearStr);
      if v.None? {
        return Err(BadYear(idx, yearStr));
      }
      year := if v.value < 50 then "20" + yearStr else "19" + yearStr;
    }
    var rowData := BuildRecord(reportYear, reportWeek, disease, year, weekColumns, grid[idx]);
    r := Ok(Outcome(Context(disease, weekColumns), Some(rowData)));
  }

  /**
   * The trend branch of `clean_csv`, as the source runs it; the table it writes is led
   * by 報告年, 報告週, 疾病 and 年.
   */
  method ReshapeTrend(grid: seq<seq<Cell>>, stem: string) returns (r: Result<Frame, TrendError>)
    requires IsGrid(grid)
    ensures r == Trend(grid, stem)
    ensures r.Ok? ==> |r.value.columns| >= 4 && r.value.columns[..4] == IdentityColumns
  {
    var parts := Split(stem, '-');
    if |parts| < 2 {
      return Err(StemTooShort);
    }
    var reportYear, reportWeek := parts[0], parts[1];
    var records: seq<Record<string>> := [];
    var disease := "";
    var weekColumns: seq<WeekColumn> := [];
    for idx := 0 to |grid|
      invariant Scan(grid, 0, NoContext, [], reportYear, reportWeek)
             == Scan(grid, idx, Context(disease, weekColumns), records, reportYear, reportWeek)
      invariant forall k :: 0 <= k < |records| ==> IdentityLed(records[k])
    {
      ScanStep(grid, idx, Context(disease, weekColumns), records, reportYear, reportWeek);
      var outcome := ScanRow(grid, idx, disease, weekColumns, reportYear, reportWeek);
      if outcome.Err? {
        return Err(outcome.error);
      }
      if outcome.value.emitted.Some? {
        StepLed(grid, idx, Context(disease, weekColumns), reportYear, reportWeek);
        records := records + [outcome.value.emitted.value];
      } else {
        assert records + Emitted(outcome.value) == records;
      }
      disease, weekColumns := outcome.value.ctx.disease, outcome.value.ctx.weeks;
    }
    TableOfLeads(records);
    r := Ok(TableOf(records));
  }

  /** Every record a row emits has distinct keys led by the four identity fields. */
  lemma StepLed(grid: seq<seq<Cell>>, idx: nat, ctx: Context, reportYear: string, reportWeek: string)
    requires IsGrid(grid) && idx < |grid| && Step(grid, idx, ctx, reportYear, reportWeek).Ok?
    ensures var o := Step(grid, idx, ctx, reportYear, reportWeek).value;
      o.emitted.Some? ==> IdentityLed(o.emitted.value)
  {
    StepEmits(grid, idx, ctx, reportYear, reportWeek);
    var o := Step(grid, idx, ctx, reportYear, reportWeek).value;
    if o.emitted.Some? {
      var year := ExpandYear(YearText(FirstText(grid[idx]))).value;
      RecordForMeaning(reportYear, reportWeek, ctx.disease, year, ctx.weeks, grid[idx]);
    }
  }

  // ---------------------------------------------------------------------
  // What the scan promises
  // ---------------------------------------------------------------------

  /**
   * Only a disease row followed by a week header changes the state, and it replaces
   * it by its stripped first cell and the week columns of the header row.
   */
  lemma StepContext(grid: seq<seq<Cell>>, idx: nat, ctx: Context, reportYear: string, reportWeek: string)
    requires IsGrid(grid) && idx < |grid| && Step(grid, idx, ctx, reportYear, reportWeek).Ok?
    ensures var o := Step(grid, idx, ctx, reportYear, reportWeek).value;
      if IsDiseaseRow(grid, idx) && NextIsWeekHeader(grid, idx)
      then o.ctx == Context(Strip(FirstText(grid[idx])), WeekColumns(grid[idx + 1]))
      else o.ctx == ctx
  {
  }

  /**
   * A row emits a record exactly when it is a year row under a disease with week
   * columns; the record carries that disease, the widened year and the row's cells.
   */
  lemma StepEmits(grid: seq<seq<Cell>>, idx: nat, ctx: Context, reportYear: string, reportWeek: string)
    requires IsGrid(grid) && idx < |grid| && Step(grid, idx, ctx, reportYear, reportWeek).Ok?
    ensures var o := Step(grid, idx, ctx, reportYear, reportWeek).value;
      (o.emitted.Some? <==> IsYearRow(grid, idx) && ctx.disease != "" && |ctx.weeks| > 0)
    ensures var o := Step(grid, idx, ctx, reportYear, reportWeek).value;
      o.emitted.Some? ==>
        && ExpandYear(YearText(FirstText(grid[idx]))).Ok?
        && o.emitted.value == RecordFor(reportYear, reportWeek, ctx.disease,
                                        ExpandYear(YearText(FirstText(grid[idx]))).value, ctx.weeks, grid[idx])
  {
  }

  /**
   * The step fails exactly on an empty row, on a non-year row one cell wide, or on a
   * two-character year under a disease that `int()` refuses.
   */
  lemma StepFails(grid: seq<seq<Cell>>, idx: nat, ctx: Context, reportYear: string, reportWeek: string)
    requires IsGrid(grid) && idx < |grid|
    ensures Step(grid, idx, ctx, reportYear, reportWeek).Err? <==>
      || |grid[idx]| == 0
      || (|grid[idx]| == 1 && !IsSkipped(FirstText(grid[idx])) && !EndsWithYear(FirstText(grid[idx])))
      || (IsYearRow(grid, idx) && ctx.disease != "" && |ctx.weeks| > 0 && ExpandYear(YearText(FirstText(grid[idx]))).Err?)
  {
  }

  /** The value of four ASCII digits. */
  lemma FourDigitsValue(s: string)
    requires |s| == 4 && AllDigits(s) && forall i :: 0 <= i < 4 ==> '0' <= s[i] <= '9'
    ensures DigitsValue(s) == 1000 * DigitValue(s[0]) + 100 * DigitValue(s[1]) + 10 * DigitValue(s[2]) + DigitValue(s[3])
  {
    assert s[..3][..2] == s[..2] && s[..2][..1] == s[..1] && s[..1][..0] == [];
    assert DigitsValue(s[..1]) == DigitValue(s[0]);
    assert DigitsValue(s[..2]) == 10 * DigitValue(s[0]) + DigitValue(s[1]);
    assert DigitsValue(s[..3]) == 10 * DigitsValue(s[..2]) + DigitValue(s[2]);
  }

  /** The value of two ASCII digits. */
  lemma TwoDigitsValue(s: string)
    requires |s| == 2 && AllDigits(s)
    ensures DigitsValue(s) == 10 * DigitValue(s[0]) + DigitValue(s[1])
  {
    assert s[..1] == [s[0]] && s[..1][..0] == [];
    assert DigitsValue(s[..1]) == DigitValue(s[0]);
  }

  /** The digits of a century followed by a two-digit year. */
  lemma CenturyYearValue(century: string, ys: string, y: string)
    requires century == "19" || century == "20"
    requires |ys| == 2 && '0' <= ys[0] <= '9' && '0' <= ys[1] <= '9'
    requires y == century + ys
    ensures forall i :: 0 <= i < |y| ==> '0' <= y[i] <= '9'
    ensures AllDigits(ys) && AllDigits(y)
    ensures DigitsValue(y) == (if century == "20" then 2000 else 1900) + DigitsValue(ys)
  {
    assert y[0] == century[0] && y[1] == century[1] && y[2] == ys[0] && y[3] == ys[1];
    FourDigitsValue(y);
    TwoDigitsValue(ys);
  }

  /** A two-digit year comes out between 1950 and 2049: the pivot at 50. */
  lemma ExpandYearPivot(ys: string)
    requires |ys| == 2 && '0' <= ys[0] <= '9' && '0' <= ys[1] <= '9'
    ensures AllDigits(ys) && ExpandYear(ys) == Ok((if DigitsValue(ys) < 50 then "20" else "19") + ys)
    ensures PyInt(ExpandYear(ys).value) == Some(if DigitsValue(ys) < 50 then 2000 + DigitsValue(ys) else 1900 + DigitsValue(ys))
  {
    PyIntOfDigits(ys);
    var century := if DigitsValue(ys) < 50 then "20" else "19";
    var y := century + ys;
    CenturyYearValue(century, ys, y);
    PyIntOfDigits(y);
  }

  /** A year of any other length is kept as it is. */
  lemma ExpandYearKeepsOthers(ys: string)
    requires |ys| != 2
    ensures ExpandYear(ys) == Ok(ys)
  {
  }
}

/** The two data rows of a one-disease trend block, field by field. */
module TrendExamples {
  import opened Wrappers
  import opened Text
  import opened Records
  import opened Tables
  import opened TrendReshaper

  /** "13" is below the pivot and widens to 2013. */
  lemma PivotExample(short: string, long: string)
    requires short == "13" && long == "2013"
    ensures ExpandYear(short) == Ok(long)
  {
    assert "20" + short == long;
    ThirteenValue(short);
    BelowPivot(short);
  }

  /** The digits "13" are worth 13. */
  lemma ThirteenValue(short: string)
    requires short == "13"
    ensures |short| == 2 && '0' <= short[0] <= '9' && '0' <= short[1] <= '9' && AllDigits(short) && DigitsValue(short) == 13
  {
    assert DigitValue(short[0]) == 1 && DigitValue(short[1]) == 3;
    TwoDigitsValue(short);
  }

  /** Two digits worth less than 50 take the century 20. */
  lemma BelowPivot(ys: string)
    requires |ys| == 2 && '0' <= ys[0] <= '9' && '0' <= ys[1] <= '9' && AllDigits(ys) && DigitsValue(ys) < 50
    ensures ExpandYear(ys) == Ok("20" + ys)
  {
    ExpandYearPivot(ys);
  }

  /** A cell holding exactly "-" is written as empty; other text is stripped. */
  lemma DashExample(dash: Cell, ten: Cell)
    requires dash == Some("-") && ten == Some("10")
    ensures WeekValue(dash) == "" && WeekValue(ten) == "10"
  {
    StripsTo(dash, "-");
    StripsTo(ten, "10");
  }

  /** The record of a year row with "10" under week 31 and "-" under week 32. */
  lemma RecordExample(row: seq<Cell>, weeks: seq<WeekColumn>, reportYear: string, reportWeek: string, disease: string,
                      year: string, week31: string, week32: string)
    requires |row| == 3 && row[1] == Some("10") && row[2] == Some("-")
    requires weeks == [WeekColumn(1, "31"), WeekColumn(2, "32")]
    requires week31 == "31週" && week32 == "32週"
    ensures var r := RecordFor(reportYear, reportWeek, disease, year, weeks, row);
      && |r.keys| >= 4 && r.keys[..4] == IdentityColumns
      && YearKey in r.values && r.values[YearKey] == year
      && week31 in r.values && r.values[week31] == "10"
      && week32 in r.values && r.values[week32] == ""
  {
    RecordExampleLead(row, weeks, reportYear, reportWeek, disease, year);
    RecordExampleWeeks(row, weeks, reportYear, reportWeek, disease, year, week31, week32);
  }

  /** The identity fields of the example record. */
  lemma RecordExampleLead(row: seq<Cell>, weeks: seq<WeekColumn>, reportYear: string, reportWeek: string, disease: string,
                          year: string)
    requires weeks == [WeekColumn(1, "31"), WeekColumn(2, "32")]
    ensures var r := RecordFor(reportYear, reportWeek, disease, year, weeks, row);
      && |r.keys| >= 4 && r.keys[..4] == IdentityColumns
      && YearKey in r.values && r.values[YearKey] == year
  {
    AddWeeksKeepsPrefix(BaseRecord(reportYear, reportWeek, disease, year), weeks, row);
    AddWeeksKeepsOthers(BaseRecord(reportYear, reportWeek, disease, year), weeks, row, YearKey);
  }

  /** The week fields of the example record. */
  lemma RecordExampleWeeks(row: seq<Cell>, weeks: seq<WeekColumn>, reportYear: string, reportWeek: string, disease: string,
                           year: string, week31: string, week32: string)
    requires |row| == 3 && row[1] == Some("10") && row[2] == Some("-")
    requires weeks == [WeekColumn(1, "31"), WeekColumn(2, "32")]
    requires week31 == "31週" && week32 == "32週"
    ensures var r := RecordFor(reportYear, reportWeek, disease, year, weeks, row);
      && week31 in r.values && r.values[week31] == "10"
      && week32 in r.values && r.values[week32] == ""
  {
    AddWeeksLastWins(BaseRecord(reportYear, reportWeek, disease, year), weeks, row, 0);
    AddWeeksLastWins(BaseRecord(reportYear, reportWeek, disease, year), weeks, row, 1);
    DashExample(row[2], row[1]);
    WeekKeys(weeks[0].week, weeks[1].week, week31, week32);
  }

  lemma WeekKeys(w31: string, w32: string, key31: string, key32: string)
    requires w31 == "31" && w32 == "32" && key31 == "31週" && key32 == "32週"
    ensures w31 + "週" == key31 && w32 + "週" == key32
  {
    assert |key31| == 3 && key31[0] == '3' && key31[1] == '1' && key31[2] == '週';
    assert |key32| == 3 && key32[0] == '3' && key32[1] == '2' && key32[2] == '週';
  }
}
