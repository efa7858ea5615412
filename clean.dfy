/**
 * `clean_csv`: the raw sheet of one bulletin goes through the trend reshaper or the
 * standard normaliser, chosen by the data type, and the call reports success or failure.
 */
module Cleaner {
  import opened Wrappers
  import opened Text
  import opened Tables
  import opened TrendReshaper
  import opened StandardNormaliser

  /** Why `clean_csv` returns False. */
  datatype CleanError = TrendFailed(trend: TrendError) | StandardFailed(standard: StandardError)

  /** The stem of a raw file name, `{year}-{WW}-{type}`, as `Path.stem` gives it. */
  function RawStem(year: int, week: int, dataType: string): string {
    IntToString(year) + "-" + Pad2(week) + "-" + dataType
  }

  /** What `clean_csv` writes for a sheet, or why it fails. */
  function Clean(dataType: string, grid: seq<seq<Cell>>, stem: string): Result<Frame, CleanError>
    requires IsGrid(grid)
  {
    if dataType == "trend" then
      match Trend(grid, stem)
      case Err(e) => Err(TrendFailed(e))
      case Ok(f) => Ok(f)
    else
      match Standard(grid, stem)
      case Err(e) => Err(StandardFailed(e))
      case Ok(f) => Ok(f)
  }

  /** `clean_csv`, as the source runs it: the output of a trend sheet is led by its four identity columns. */
  method CleanCsv(dataType: string, grid: seq<seq<Cell>>, stem: string) returns (r: Result<Frame, CleanError>)
    requires IsGrid(grid)
    ensures r == Clean(dataType, grid, stem)
    ensures dataType == "trend" && r.Ok? ==> |r.value.columns| >= 4 && r.value.columns[..4] == IdentityColumns
  {
    if dataType == "trend" {
      var t := ReshapeTrend(grid, stem);
      if t.Err? {
        return Err(TrendFailed(t.error));
      }
      r := Ok(t.value);
    } else {
      var s := NormaliseStandard(grid, stem);
      if s.Err? {
        return Err(StandardFailed(s.error));
      }
      r := Ok(s.value);
    }
  }

  /** A raw stem splits back into the year, the padded week and the type. */
  lemma RawStemParts(year: nat, week: nat, dataType: string)
    requires '-' !in dataType
    ensures Split(RawStem(year, week, dataType), '-') == [NatToString(year), Pad2(week), dataType]
  {
    var y, w := NatToString(year), Pad2(week);
    Pad2Digits(week);
    assert '-' !in y && '-' !in w;
    assert RawStem(year, week, dataType) == y + ['-'] + (w + ['-'] + dataType);
    SplitAtFirst(y, '-', w + ['-'] + dataType);
    SplitAtFirst(w, '-', dataType);
    SplitNoSeparator(dataType, '-');
  }

  /**
   * A standard sheet under a raw file name fails exactly when it has fewer than four rows
   * or its own header already names 年 or 週.
   */
  lemma StandardCleanFails(year: nat, week: nat, dataType: string, grid: seq<seq<Cell>>)
    requires IsGrid(grid) && dataType != "trend" && '-' !in dataType
    ensures Clean(dataType, grid, RawStem(year, week, dataType)).Err? <==>
      |grid| < 4 || StandardNormaliser.YearColumn in HeaderNames(grid[2], grid[3]) || StandardNormaliser.WeekColumn in HeaderNames(grid[2], grid[3])
  {
    RawStemParts(year, week, dataType);
    StandardFails(grid, RawStem(year, week, dataType));
  }

  /**
   * A standard sheet cleaned under a raw file name is led by 年 and 週, and every data row
   * by the year and the two-digit week of the name.
   */
  lemma StandardCleanLeads(year: nat, week: nat, dataType: string, grid: seq<seq<Cell>>)
    requires IsGrid(grid) && dataType != "trend" && '-' !in dataType
    requires Clean(dataType, grid, RawStem(year, week, dataType)).Ok?
    ensures var f := Clean(dataType, grid, RawStem(year, week, dataType)).value;
            && |grid| >= 4 && |f.rows| == |grid| - 4
            && f.columns == [StandardNormaliser.YearColumn, StandardNormaliser.WeekColumn] + HeaderNames(grid[2], grid[3])
            && forall i :: 0 <= i < |f.rows| ==> f.rows[i] == [Some(NatToString(year)), Some(Pad2(week))] + grid[4 + i]
  {
    RawStemParts(year, week, dataType);
    StandardRows(grid, RawStem(year, week, dataType));
  }
}
