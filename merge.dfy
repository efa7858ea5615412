/**
 * The merge step of `merge_all_csv`: every processed file of a data type gets its
 * ISO week's dates as columns, files that cannot be read or dated are skipped, and
 * the rest are concatenated in file order.
 */
module Merger {
  import opened Wrappers
  import opened Text
  import opened Records
  import opened Tables
  import opened Calendar

  const YearColumn := "年"
  const WeekColumn := "週"
  const MonthColumn := "月"
  const StartColumn := "開始日"
  const EndColumn := "終了日"

  /** A processed file: the stem of its name, and its table, `None` when `read_csv` raised. */
  datatype SourceFile = SourceFile(stem: string, table: Option<Frame>)

  /** How `merge_all_csv` ends. */
  datatype MergeOutcome =
    | NoFiles               // no processed file: nothing is written
    | Aborted(file: nat)    // the name of this file has no `int()` year or week: the call raises
    | NoData                // every file was skipped: nothing is written
    | Merged(frame: Frame)  // the concatenation that is written

  /** Tables as `read_csv` yields them: rectangular, and with distinct names (pandas renames repeats). */
  predicate WellRead(files: seq<SourceFile>) {
    forall k :: 0 <= k < |files| && files[k].table.Some? ==>
      Rectangular(files[k].table.value) && Distinct(files[k].table.value.columns)
  }

  /** The year and week `int()` reads from the first two `-`-separated parts of a stem. */
  function StemNumbers(stem: string): Option<(int, int)> {
    var parts := Split(stem, '-');
    if |parts| < 2 then None
    else match (PyInt(parts[0]), PyInt(parts[1]))
      case (Some(y), Some(w)) => Some((y, w))
      case _ => None
  }

  /** `df.insert(loc, name, value)` guarded by `if name not in df.columns`. */
  function InsertIfAbsent(f: Frame, loc: nat, name: string, value: string): (r: Result<Frame, InsertError>)
    requires Rectangular(f)
    ensures r.Ok? ==> Rectangular(r.value) && |r.value.rows| == |f.rows| && name in r.value.columns
  {
    if name in f.columns then Ok(f) else Insert(f, loc, name, value)
  }

  /** The names of the five date columns, in the order they are put in front. */
  const DateColumns := [YearColumn, WeekColumn, MonthColumn, StartColumn, EndColumn]

  /**
   * The five inserts of the `try`, for column names `ns` and values `vs`: the first two
   * only when the name is absent, the last three at positions 2, 3 and 4 unconditionally;
   * `None` when one raises.
   */
  function InsertDates(t: Frame, ns: seq<string>, vs: seq<string>): (r: Option<Frame>)
    requires Rectangular(t) && |ns| == 5 && |vs| == 5
    ensures r.Some? ==> Rectangular(r.value) && |r.value.rows| == |t.rows|
  {
    match InsertIfAbsent(t, 0, ns[0], vs[0])
    case Err(_) => None
    case Ok(t1) =>
      match InsertIfAbsent(t1, 1, ns[1], vs[1])
      case Err(_) => None
      case Ok(t2) =>
        match Insert(t2, 2, ns[2], vs[2])
        case Err(_) => None
        case Ok(t3) =>
          match Insert(t3, 3, ns[3], vs[3])
          case Err(_) => None
          case Ok(t4) =>
            match Insert(t4, 4, ns[4], vs[4])
            case Err(_) => None
            case Ok(t5) => Some(t5)
  }

  /** The values the five date columns get: the year, the week, the month and the two dates. */
  function DateValues(year: int, week: int, d: WeekDates): (vs: seq<string>)
    ensures |vs| == 5
  {
    [IntToString(year), IntToString(week), IntToString(d.month), d.startDate, d.endDate]
  }

  /** The inserts of the `try` after `read_csv`, given the week's dates; `None` when one raises. */
  function Annotated(t: Frame, year: int, week: int, d: WeekDates): (r: Option<Frame>)
    requires Rectangular(t)
    ensures r.Some? ==> Rectangular(r.value) && |r.value.rows| == |t.rows|
  {
    InsertDates(t, DateColumns, DateValues(year, week, d))
  }

  /**
   * The body of the `try` after `read_csv`: the week's dates, 年 and 週 when absent,
   * then 月, 開始日 and 終了日 at positions 2, 3 and 4; `None` when any step raises.
   */
  function Annotate(t: Frame, year: int, week: int): (r: Option<Frame>)
    requires Rectangular(t)
    ensures r.Some? ==> Rectangular(r.value) && |r.value.rows| == |t.rows|
  {
    match GetWeekDates(year, week)
    case Err(_) => None
    case Ok(d) => Annotated(t, year, week, d)
  }

  /** What a file contributes to the merge: its annotated table, or nothing when it is skipped. */
  function Prepared(file: SourceFile, year: int, week: int): (r: Option<Frame>)
    requires file.table.Some? ==> Rectangular(file.table.value)
    ensures r.Some? ==> file.table.Some? && Rectangular(r.value) && |r.value.rows| == |file.table.value.rows|
  {
    if file.table.None? then None else Annotate(file.table.value, year, week)
  }

  /** The year and week of every file's stem, in file order. */
  function StemsRead(files: seq<SourceFile>): (r: seq<Option<(int, int)>>)
    ensures |r| == |files| && forall k :: 0 <= k < |files| ==> r[k] == StemNumbers(files[k].stem)
  {
    seq(|files|, k requires 0 <= k < |files| => StemNumbers(files[k].stem))
  }

  lemma {:induction false} PresentRectangular(s: seq<Option<Frame>>)
    requires forall k :: 0 <= k < |s| && s[k].Some? ==> Rectangular(s[k].value)
    ensures AllRectangular(Present(s))
    decreases |s|
  {
    if |s| > 0 {
      var n := |s| - 1;
      assert forall k :: 0 <= k < n ==> s[..n][k] == s[k];
      PresentRectangular(s[..n]);
    }
  }

  /**
   * What each file contributes to the merge, given the year and week its name gave:
   * nothing for a file whose name gave none.
   */
  function Contributions(files: seq<SourceFile>, numbers: seq<Option<(int, int)>>): (r: seq<Option<Frame>>)
    requires WellRead(files) && |numbers| == |files|
    ensures |r| == |files|
    ensures forall k :: 0 <= k < |files| && numbers[k].Some? ==> r[k] == Prepared(files[k], numbers[k].value.0, numbers[k].value.1)
    ensures forall k :: 0 <= k < |files| && numbers[k].None? ==> r[k].None?
  {
    seq(|files|, k requires 0 <= k < |files| =>
      if numbers[k].None? then None else Prepared(files[k], numbers[k].value.0, numbers[k].value.1))
  }

  /** The annotated tables of the files that are not skipped, in file order. */
  function Kept(files: seq<SourceFile>, numbers: seq<Option<(int, int)>>): (r: seq<Frame>)
    requires WellRead(files) && |numbers| == |files|
    requires forall k :: 0 <= k < |files| ==> numbers[k].Some?
    ensures AllRectangular(r)
  {
    var c := Contributions(files, numbers);
    PresentRectangular(c);
    Present(c)
  }

  /** What `merge_all_csv` does with the processed files, in the sorted order of their names. */
  function Merge(files: seq<SourceFile>): MergeOutcome
    requires WellRead(files)
  {
    var numbers := StemsRead(files);
    if |files| == 0 then NoFiles
    else match FirstNone(numbers)
      case Some(k) => Aborted(k)
      case None =>
        var kept := Kept(files, numbers);
        if |kept| == 0 then NoData else Merged(Concat(kept))
  }

  /** The `-` split and the two `int()` calls at the head of the loop body, for file `k`. */
  method ReadStem(files: seq<SourceFile>, k: nat) returns (r: Option<(int, int)>)
    requires k < |files|
    ensures r == StemsRead(files)[k]
  {
    var parts := Split(files[k].stem, '-');
    if |parts| < 2 {
      return None;
    }
    var year := PyInt(parts[0]);
    if year.None? {
      return None;
    }
    var week := PyInt(parts[1]);
    if week.None? {
      return None;
    }
    r := Some((year.value, week.value));
  }

  /**
   * The `try` body of the loop for a file whose name gave `year` and `week`: its
   * annotated table, or `None` when it is skipped.
   */
  method Contribute(file: SourceFile, year: int, week: int) returns (df: Option<Frame>)
    requires file.table.Some? ==> Rectangular(file.table.value)
    ensures df == Prepared(file, year, week)
  {
    var table := file.table;
    if table.None? {
      return None;
    }
    df := Annotate(table.value, year, week);
  }

  /**
   * The loop of `merge_all_csv` over the processed files: the first file whose name has
   * no year and week, or else the annotated tables of the files that are not skipped.
   */
  method CollectTables(files: seq<SourceFile>) returns (aborted: Option<nat>, allData: seq<Frame>)
    requires WellRead(files)
    ensures aborted == FirstNone(StemsRead(files))
    ensures aborted.None? ==> allData == Kept(files, StemsRead(files))
  {
    allData := [];
    ghost var numbers := StemsRead(files);
    ghost var contributions := Contributions(files, numbers);
    for k := 0 to |files|
      invariant forall j :: 0 <= j < k ==> numbers[j].Some?
      invariant allData == Present(contributions[..k])
    {
      var n := ReadStem(files, k);
      if n.None? {
        FirstNoneAt(numbers, k);
        return Some(k), allData;
      }
      AllReadStep(numbers, k);
      var df := Contribute(files[k], n.value.0, n.value.1);
      assert df == contributions[k];
      PresentStep(contributions, k);
      allData := allData + (if df.Some? then [df.value] else []);
    }
    WholePrefix(contributions);
    aborted := None;
  }

  /** One more position holding numbers extends the run of positions that hold them. */
  lemma AllReadStep(numbers: seq<Option<(int, int)>>, k: nat)
    requires k < |numbers| && numbers[k].Some? && forall j :: 0 <= j < k ==> numbers[j].Some?
    ensures forall j :: 0 <= j < k + 1 ==> numbers[j].Some?
  {
  }

  /** `merge_all_csv`, as the source runs it. */
  method MergeAllCsv(files: seq<SourceFile>) returns (r: MergeOutcome)
    requires WellRead(files)
    ensures r == Merge(files)
  {
    if |files| == 0 {
      return NoFiles;
    }
    var aborted, allData := CollectTables(files);
    if aborted.Some? {
      return Aborted(aborted.value);
    }
    if |allData| == 0 {
      return NoData;
    }
    r := Merged(Concat(allData));
  }

  lemma TwoNamesInside(cs: seq<string>, a: string, b: string)
    requires a != b && a in cs && b in cs
    ensures |cs| >= 2
  {
  }

  lemma ThreeNamesInside(cs: seq<string>, a: string, b: string, c: string)
    requires a != b && a != c && b != c && a in cs && b in cs && c in cs
    ensures |cs| >= 3
  {
    var i :| 0 <= i < |cs| && cs[i] == c;
    var rest := cs[..i] + cs[i + 1..];
    assert cs == cs[..i] + [c] + cs[i + 1..];
    assert a in rest && b in rest;
    TwoNamesInside(rest, a, b);
  }

  lemma FourNamesInside(cs: seq<string>, a: string, b: string, c: string, d: string)
    requires a != b && a != c && b != c && a != d && b != d && c != d
    requires a in cs && b in cs && c in cs && d in cs
    ensures |cs| >= 4
  {
    var i :| 0 <= i < |cs| && cs[i] == d;
    var rest := cs[..i] + cs[i + 1..];
    assert cs == cs[..i] + [d] + cs[i + 1..];
    assert a in rest && b in rest && c in rest;
    ThreeNamesInside(rest, a, b, c);
  }

  /** An insert that succeeds adds exactly its name to the columns. */
  lemma InsertMembers(f: Frame, loc: nat, name: string, value: string)
    requires Rectangular(f) && Insert(f, loc, name, value).Ok?
    ensures forall c :: c in Insert(f, loc, name, value).value.columns <==> c in f.columns || c == name
  {
    var r := Insert(f, loc, name, value).value;
    assert r.columns == f.columns[..loc] + [name] + f.columns[loc..];
    assert f.columns == f.columns[..loc] + f.columns[loc..];
  }

  /** A guarded insert that succeeds leaves exactly the old columns and its name. */
  lemma InsertIfAbsentMembers(f: Frame, loc: nat, name: string, value: string)
    requires Rectangular(f) && InsertIfAbsent(f, loc, name, value).Ok?
    ensures forall c :: c in InsertIfAbsent(f, loc, name, value).value.columns <==> c in f.columns || c == name
  {
    if name !in f.columns {
      InsertMembers(f, loc, name, value);
    }
  }

  /**
   * With distinct names, the five inserts fail exactly when the table already has one of
   * the last three: the first two never fail, and once both are there, positions 2, 3
   * and 4 always exist.
   */
  lemma InsertDatesFail(t: Frame, ns: seq<string>, vs: seq<string>)
    requires Rectangular(t) && |ns| == 5 && |vs| == 5 && Distinct(ns)
    ensures InsertDates(t, ns, vs).None? <==> ns[2] in t.columns || ns[3] in t.columns || ns[4] in t.columns
  {
    if ns[2] in t.columns || ns[3] in t.columns || ns[4] in t.columns {
      InsertDatesRefused(t, ns, vs);
    } else {
      InsertDatesSucceed(t, ns, vs);
    }
  }

  /** The first two inserts never fail, and leave the table's columns and the first two names. */
  lemma InsertFirstTwo(t: Frame, ns: seq<string>, vs: seq<string>)
    requires Rectangular(t) && |ns| == 5 && |vs| == 5 && ns[0] != ns[1]
    ensures InsertIfAbsent(t, 0, ns[0], vs[0]).Ok?
    ensures InsertIfAbsent(InsertIfAbsent(t, 0, ns[0], vs[0]).value, 1, ns[1], vs[1]).Ok?
    ensures var t2 := InsertIfAbsent(InsertIfAbsent(t, 0, ns[0], vs[0]).value, 1, ns[1], vs[1]).value;
            && |t2.columns| >= 2 && forall c :: c in t2.columns <==> c in t.columns || c == ns[0] || c == ns[1]
  {
    InsertIfAbsentMembers(t, 0, ns[0], vs[0]);
    InsertIfAbsentMembers(InsertIfAbsent(t, 0, ns[0], vs[0]).value, 1, ns[1], vs[1]);
    TwoNamesInside(InsertIfAbsent(InsertIfAbsent(t, 0, ns[0], vs[0]).value, 1, ns[1], vs[1]).value.columns, ns[0], ns[1]);
  }

  /** A table already holding one of the last three names is refused. */
  lemma InsertDatesRefused(t: Frame, ns: seq<string>, vs: seq<string>)
    requires Rectangular(t) && |ns| == 5 && |vs| == 5 && Distinct(ns)
    requires ns[2] in t.columns || ns[3] in t.columns || ns[4] in t.columns
    ensures InsertDates(t, ns, vs).None?
  {
    InsertFirstTwo(t, ns, vs);
    var t2 := InsertIfAbsent(InsertIfAbsent(t, 0, ns[0], vs[0]).value, 1, ns[1], vs[1]).value;
    if ns[2] !in t.columns {
      InsertMembers(t2, 2, ns[2], vs[2]);
      if ns[3] !in t.columns {
        InsertMembers(Insert(t2, 2, ns[2], vs[2]).value, 3, ns[3], vs[3]);
      }
    }
  }

  /** A table holding none of the last three names takes all five inserts. */
  lemma InsertDatesSucceed(t: Frame, ns: seq<string>, vs: seq<string>)
    requires Rectangular(t) && |ns| == 5 && |vs| == 5 && Distinct(ns)
    requires ns[2] !in t.columns && ns[3] !in t.columns && ns[4] !in t.columns
    ensures InsertDates(t, ns, vs).Some?
  {
    InsertFirstTwo(t, ns, vs);
    var t2 := InsertIfAbsent(InsertIfAbsent(t, 0, ns[0], vs[0]).value, 1, ns[1], vs[1]).value;
    assert ns[2] != ns[0] && ns[2] != ns[1];
    var t3 := Insert(t2, 2, ns[2], vs[2]).value;
    InsertMembers(t2, 2, ns[2], vs[2]);
    ThreeNamesInside(t3.columns, ns[0], ns[1], ns[2]);
    assert ns[3] != ns[0] && ns[3] != ns[1] && ns[3] != ns[2];
    var t4 := Insert(t3, 3, ns[3], vs[3]).value;
    InsertMembers(t3, 3, ns[3], vs[3]);
    FourNamesInside(t4.columns, ns[0], ns[1], ns[2], ns[3]);
    assert ns[4] != ns[0] && ns[4] != ns[1] && ns[4] != ns[2] && ns[4] != ns[3];
  }

  /** On success, positions 2, 3 and 4 hold the last three names, filled on every row with their values. */
  lemma InsertDatesAt(t: Frame, ns: seq<string>, vs: seq<string>)
    requires Rectangular(t) && |ns| == 5 && |vs| == 5 && InsertDates(t, ns, vs).Some?
    ensures var r := InsertDates(t, ns, vs).value;
            && |r.columns| >= 5 && r.columns[2..5] == ns[2..5]
            && forall i :: 0 <= i < |r.rows| ==> r.rows[i][2..5] == [Some(vs[2]), Some(vs[3]), Some(vs[4])]
  {
    var t1 := InsertIfAbsent(t, 0, ns[0], vs[0]).value;
    var t2 := InsertIfAbsent(t1, 1, ns[1], vs[1]).value;
    var t3 := Insert(t2, 2, ns[2], vs[2]).value;
    var t4 := Insert(t3, 3, ns[3], vs[3]).value;
    var t5 := Insert(t4, 4, ns[4], vs[4]).value;
    assert t5.columns[2..5] == [t5.columns[2], t5.columns[3], t5.columns[4]];
    assert ns[2..5] == [ns[2], ns[3], ns[4]];
    forall i | 0 <= i < |t5.rows|
      ensures t5.rows[i][2..5] == [Some(vs[2]), Some(vs[3]), Some(vs[4])]
    {
      assert t4.rows[i][2] == t3.rows[i][2];
      assert t5.rows[i][2..5] == [t5.rows[i][2], t5.rows[i][3], t5.rows[i][4]];
    }
  }

  /** On success, the columns are the table's own and the five names, three to five more of them. */
  lemma InsertDatesColumns(t: Frame, ns: seq<string>, vs: seq<string>)
    requires Rectangular(t) && |ns| == 5 && |vs| == 5 && Distinct(ns) && InsertDates(t, ns, vs).Some?
    ensures var r := InsertDates(t, ns, vs).value;
            && (forall c :: c in r.columns <==> c in t.columns || c == ns[0] || c == ns[1] || c == ns[2] || c == ns[3] || c == ns[4])
            && |r.columns| == |t.columns| + 3 + (if ns[0] in t.columns then 0 else 1) + (if ns[1] in t.columns then 0 else 1)
  {
    var t1 := InsertIfAbsent(t, 0, ns[0], vs[0]).value;
    InsertIfAbsentMembers(t, 0, ns[0], vs[0]);
    var t2 := InsertIfAbsent(t1, 1, ns[1], vs[1]).value;
    InsertIfAbsentMembers(t1, 1, ns[1], vs[1]);
    assert ns[0] != ns[1];
    var t3 := Insert(t2, 2, ns[2], vs[2]).value;
    InsertMembers(t2, 2, ns[2], vs[2]);
    var t4 := Insert(t3, 3, ns[3], vs[3]).value;
    InsertMembers(t3, 3, ns[3], vs[3]);
    var t5 := Insert(t4, 4, ns[4], vs[4]).value;
    InsertMembers(t4, 4, ns[4], vs[4]);
  }

  /** The five inserts keep the column names distinct. */
  lemma InsertDatesDistinct(t: Frame, ns: seq<string>, vs: seq<string>)
    requires Rectangular(t) && |ns| == 5 && |vs| == 5 && Distinct(t.columns) && InsertDates(t, ns, vs).Some?
    ensures Distinct(InsertDates(t, ns, vs).value.columns)
  {
    var t1 := InsertIfAbsent(t, 0, ns[0], vs[0]).value;
    if ns[0] !in t.columns {
      InsertKeepsDistinct(t, 0, ns[0], vs[0]);
    }
    var t2 := InsertIfAbsent(t1, 1, ns[1], vs[1]).value;
    if ns[1] !in t1.columns {
      InsertKeepsDistinct(t1, 1, ns[1], vs[1]);
    }
    var t3 := Insert(t2, 2, ns[2], vs[2]).value;
    InsertKeepsDistinct(t2, 2, ns[2], vs[2]);
    var t4 := Insert(t3, 3, ns[3], vs[3]).value;
    InsertKeepsDistinct(t3, 3, ns[3], vs[3]);
    InsertKeepsDistinct(t4, 4, ns[4], vs[4]);
  }

  /** A frame whose columns and rows are `lead` and `vals` before those of `g`: an insert just after them extends both. */
  lemma InsertAfterLead(f: Frame, g: Frame, lead: seq<string>, vals: seq<Cell>, name: string, v: string,
                        lead': seq<string>, vals': seq<Cell>)
    requires Rectangular(f) && f.columns == lead + g.columns && |vals| == |lead|
    requires |f.rows| == |g.rows| && forall i :: 0 <= i < |f.rows| ==> f.rows[i] == vals + g.rows[i]
    requires name !in f.columns
    requires lead' == lead + [name] && vals' == vals + [Some(v)]
    ensures Insert(f, |lead|, name, v).Ok?
    ensures var h := Insert(f, |lead|, name, v).value;
            && h.columns == lead' + g.columns && |h.rows| == |g.rows|
            && forall i :: 0 <= i < |h.rows| ==> h.rows[i] == vals' + g.rows[i]
  {
    var h := Insert(f, |lead|, name, v).value;
    assert h.columns == (lead + [name]) + g.columns;
    forall i | 0 <= i < |h.rows|
      ensures h.rows[i] == (vals + [Some(v)]) + g.rows[i]
    {
      assert h.rows[i] == InsertAt(vals + g.rows[i], |vals|, Some(v));
    }
  }

  /** When the first two names are new as well, all five lead the columns and their values lead every row. */
  lemma InsertDatesFresh(t: Frame, ns: seq<string>, vs: seq<string>)
    requires Rectangular(t) && |ns| == 5 && |vs| == 5 && Distinct(ns)
    requires forall k :: 0 <= k < 5 ==> ns[k] !in t.columns
    ensures InsertDates(t, ns, vs).Some?
    ensures var r := InsertDates(t, ns, vs).value;
            && r.columns == ns + t.columns
            && forall i :: 0 <= i < |t.rows| ==>
                 r.rows[i] == [Some(vs[0]), Some(vs[1]), Some(vs[2]), Some(vs[3]), Some(vs[4])] + t.rows[i]
  {
    assert t.columns == [] + t.columns;
    assert forall i :: 0 <= i < |t.rows| ==> t.rows[i] == [] + t.rows[i];
    var c1, c2, c3, c4 := ns[..1], ns[..2], ns[..3], ns[..4];
    var s1, s2, s3 := [Some(vs[0])], [Some(vs[0]), Some(vs[1])], [Some(vs[0]), Some(vs[1]), Some(vs[2])];
    var s4 := [Some(vs[0]), Some(vs[1]), Some(vs[2]), Some(vs[3])];
    var s5 := [Some(vs[0]), Some(vs[1]), Some(vs[2]), Some(vs[3]), Some(vs[4])];
    assert c1 == [] + [ns[0]] && c2 == c1 + [ns[1]] && c3 == c2 + [ns[2]] && c4 == c3 + [ns[3]] && ns == c4 + [ns[4]];
    InsertAfterLead(t, t, [], [], ns[0], vs[0], c1, s1);
    var t1 := Insert(t, 0, ns[0], vs[0]).value;
    assert ns[1] !in t1.columns;
    InsertAfterLead(t1, t, c1, s1, ns[1], vs[1], c2, s2);
    var t2 := Insert(t1, 1, ns[1], vs[1]).value;
    assert ns[2] !in t2.columns;
    InsertAfterLead(t2, t, c2, s2, ns[2], vs[2], c3, s3);
    var t3 := Insert(t2, 2, ns[2], vs[2]).value;
    assert ns[3] !in t3.columns;
    InsertAfterLead(t3, t, c3, s3, ns[3], vs[3], c4, s4);
    var t4 := Insert(t3, 3, ns[3], vs[3]).value;
    assert ns[4] !in t4.columns;
    InsertAfterLead(t4, t, c4, s4, ns[4], vs[4], ns, s5);
    assert InsertIfAbsent(t, 0, ns[0], vs[0]) == Ok(t1);
    assert InsertIfAbsent(t1, 1, ns[1], vs[1]) == Ok(t2);
  }

  /** The five date column names differ from one another. */
  lemma DateColumnsDistinct()
    ensures Distinct(DateColumns)
  {
    assert YearColumn[0] != WeekColumn[0] && YearColumn[0] != MonthColumn[0] && WeekColumn[0] != MonthColumn[0];
    assert |StartColumn| == |EndColumn| == 3 && StartColumn[0] != EndColumn[0];
  }

  /** Given the dates, the inserts fail exactly when the table already has a 月, 開始日 or 終了日 column. */
  lemma AnnotatedFails(t: Frame, year: int, week: int, d: WeekDates)
    requires Rectangular(t)
    ensures Annotated(t, year, week, d).None? <==>
      MonthColumn in t.columns || StartColumn in t.columns || EndColumn in t.columns
  {
    DateColumnsDistinct();
    InsertDatesFail(t, DateColumns, DateValues(year, week, d));
  }

  /** A file's table is skipped exactly when its week has no dates or one of the inserts of 月, 開始日, 終了日 clashes. */
  lemma AnnotateFails(t: Frame, year: int, week: int)
    requires Rectangular(t)
    ensures Annotate(t, year, week).None? <==>
      GetWeekDates(year, week).Err? || MonthColumn in t.columns || StartColumn in t.columns || EndColumn in t.columns
  {
    if GetWeekDates(year, week).Ok? {
      AnnotatedFails(t, year, week, GetWeekDates(year, week).value);
    }
  }

  /** On success, columns 2, 3 and 4 are 月, 開始日 and 終了日, filled on every row with the week's month and dates. */
  lemma AnnotatedDates(t: Frame, year: int, week: int, d: WeekDates)
    requires Rectangular(t) && Annotated(t, year, week, d).Some?
    ensures var r := Annotated(t, year, week, d).value;
            && |r.columns| >= 5 && r.columns[2..5] == [MonthColumn, StartColumn, EndColumn]
            && forall i :: 0 <= i < |r.rows| ==>
                 r.rows[i][2..5] == [Some(IntToString(d.month)), Some(d.startDate), Some(d.endDate)]
  {
    InsertDatesAt(t, DateColumns, DateValues(year, week, d));
    assert DateColumns[2..5] == [MonthColumn, StartColumn, EndColumn];
  }

  /** On success, the columns are the table's own and the five date columns, and no name repeats when none did. */
  lemma AnnotatedColumns(t: Frame, year: int, week: int, d: WeekDates)
    requires Rectangular(t) && Annotated(t, year, week, d).Some?
    ensures var r := Annotated(t, year, week, d).value;
            && (forall c :: c in r.columns <==>
                  c in t.columns || c == YearColumn || c == WeekColumn || c == MonthColumn || c == StartColumn || c == EndColumn)
            && |r.columns| == |t.columns| + 3 + (if YearColumn in t.columns then 0 else 1) + (if WeekColumn in t.columns then 0 else 1)
            && (Distinct(t.columns) ==> Distinct(r.columns))
  {
    DateColumnsDistinct();
    InsertDatesColumns(t, DateColumns, DateValues(year, week, d));
    if Distinct(t.columns) {
      InsertDatesDistinct(t, DateColumns, DateValues(year, week, d));
    }
  }

  /**
   * When the table has none of the five, the columns lead in the order
   * 年, 週, 月, 開始日, 終了日, and every row is led by the year, week, month and dates.
   */
  lemma AnnotatedFresh(t: Frame, year: int, week: int, d: WeekDates)
    requires Rectangular(t)
    requires YearColumn !in t.columns && WeekColumn !in t.columns
    requires MonthColumn !in t.columns && StartColumn !in t.columns && EndColumn !in t.columns
    ensures Annotated(t, year, week, d).Some?
    ensures var r := Annotated(t, year, week, d).value;
            && r.columns == [YearColumn, WeekColumn, MonthColumn, StartColumn, EndColumn] + t.columns
            && forall i :: 0 <= i < |t.rows| ==>
                 r.rows[i] == [Some(IntToString(year)), Some(IntToString(week)), Some(IntToString(d.month)), Some(d.startDate), Some(d.endDate)] + t.rows[i]
  {
    DateColumnsDistinct();
    InsertDatesFresh(t, DateColumns, DateValues(year, week, d));
  }

  /** The shape every annotated table has: 月, 開始日 and 終了日 at positions 2 to 4, and no repeated name. */
  ghost predicate DateLed(f: Frame) {
    |f.columns| >= 5 && f.columns[2..5] == [MonthColumn, StartColumn, EndColumn] && Distinct(f.columns)
  }

  lemma PreparedDateLed(file: SourceFile, year: int, week: int)
    requires file.table.Some? ==> Rectangular(file.table.value) && Distinct(file.table.value.columns)
    requires Prepared(file, year, week).Some?
    ensures DateLed(Prepared(file, year, week).value)
  {
    var t := file.table.value;
    var d := GetWeekDates(year, week).value;
    AnnotatedDates(t, year, week, d);
    AnnotatedColumns(t, year, week, d);
  }

  /** Every table the merge keeps is date-led. */
  lemma KeptDateLed(files: seq<SourceFile>, numbers: seq<Option<(int, int)>>)
    requires WellRead(files) && |numbers| == |files|
    requires forall k :: 0 <= k < |files| ==> numbers[k].Some?
    ensures forall k :: 0 <= k < |Kept(files, numbers)| ==> DateLed(Kept(files, numbers)[k])
  {
    var c := Contributions(files, numbers);
    PresentMembers(c);
    forall i | 0 <= i < |Present(c)| ensures DateLed(Present(c)[i]) {
      var k :| 0 <= k < |c| && c[k] == Some(Present(c)[i]);
      PreparedDateLed(files[k], numbers[k].value.0, numbers[k].value.1);
    }
  }

  /** The merge keeps exactly the tables that read and annotate: each of them, and nothing else. */
  lemma KeptMembers(files: seq<SourceFile>, numbers: seq<Option<(int, int)>>)
    requires WellRead(files) && |numbers| == |files|
    requires forall k :: 0 <= k < |files| ==> numbers[k].Some?
    ensures |Kept(files, numbers)| <= |files|
    ensures forall f :: f in Kept(files, numbers) <==>
              exists k :: 0 <= k < |files| && Prepared(files[k], numbers[k].value.0, numbers[k].value.1) == Some(f)
  {
    PresentMembers(Contributions(files, numbers));
  }

  /** The merge writes nothing exactly when there are no files, or every file is skipped. */
  lemma MergeOutcomes(files: seq<SourceFile>)
    requires WellRead(files)
    ensures Merge(files) == NoFiles <==> |files| == 0
    ensures Merge(files).Aborted? <==> exists k :: 0 <= k < |files| && StemNumbers(files[k].stem).None?
    ensures Merge(files).Aborted? ==>
      var k := Merge(files).file;
      && k < |files| && StemNumbers(files[k].stem).None?
      && forall j :: 0 <= j < k ==> StemNumbers(files[j].stem).Some?
    ensures Merge(files) == NoData <==>
      && |files| > 0
      && (forall k :: 0 <= k < |files| ==> StemNumbers(files[k].stem).Some?)
      && |Kept(files, StemsRead(files))| == 0
  {
  }

  /** A concatenation led by a date-led table has 月, 開始日 and 終了日 at positions 2 to 4. */
  lemma ConcatDateLed(fs: seq<Frame>)
    requires AllRectangular(fs) && |fs| >= 1 && DateLed(fs[0])
    ensures |Concat(fs).columns| >= 5 && Concat(fs).columns[2..5] == [MonthColumn, StartColumn, EndColumn]
  {
    var lists := ColumnLists(fs);
    UnionColumnsLeads(lists);
    var u := Concat(fs).columns;
    assert u[..|fs[0].columns|] == fs[0].columns;
    assert u[2..5] == u[..|fs[0].columns|][2..5];
  }

  /**
   * The merged table holds the rows of every kept table, one after another, under the
   * union of their columns; the first kept table's columns lead, so 月, 開始日 and
   * 終了日 are its columns 2 to 4.
   */
  lemma MergeShape(files: seq<SourceFile>)
    requires WellRead(files) && Merge(files).Merged?
    ensures forall k :: 0 <= k < |files| ==> StemNumbers(files[k].stem).Some?
    ensures var kept := Kept(files, StemsRead(files));
            var f := Merge(files).frame;
            && |kept| >= 1
            && Rectangular(f) && Distinct(f.columns)
            && |f.rows| == RowCount(kept)
            && (forall c :: c in f.columns <==> exists k :: 0 <= k < |kept| && c in kept[k].columns)
            && |f.columns| >= 5 && f.columns[2..5] == [MonthColumn, StartColumn, EndColumn]
  {
    var numbers := StemsRead(files);
    var kept := Kept(files, numbers);
    assert Merge(files).frame == Concat(kept);
    ConcatShape(kept);
    KeptDateLed(files, numbers);
    ConcatDateLed(kept);
  }

  /**
   * The stems `clean_csv` writes, `{year}-{week:02d}-{type}-clean`, give back their year
   * and week whenever the type has no `-`.
   */
  lemma ProcessedStemNumbers(year: nat, week: nat, dataType: string)
    requires '-' !in dataType
    ensures StemNumbers(IntToString(year) + "-" + Pad2(week) + "-" + dataType + "-clean") == Some((year, week))
  {
    var y, w := IntToString(year), Pad2(week);
    Pad2Digits(week);
    var rest := dataType + "-clean";
    assert '-' !in y;
    assert '-' !in w;
    assert y + "-" + w + "-" + dataType + "-clean" == y + ['-'] + (w + ['-'] + rest);
    SplitAtFirst(y, '-', w + ['-'] + rest);
    SplitAtFirst(w, '-', rest);
    PyIntOfNatToString(year);
    PyIntOfPad2(week);
  }
}
