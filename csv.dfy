/**
 * The browser's CSV reader and writer: `parseCSVLine`, a character-level state machine
 * with quote toggling and `""` escapes; `parseCSV`, which splits the text into lines,
 * reads the header and keeps the rows of the right width; and the per-field escaping of
 * `exportToCSV`, its inverse on string fields.
 */
module CsvParser {
  import opened Wrappers
  import opened Text
  import opened Records

  // ---------------------------------------------------------------------
  // One line
  // ---------------------------------------------------------------------

  /** The fields `fs` with `p` put in front of the first one. */
  function Prefix(p: string, fs: seq<string>): (r: seq<string>)
    requires |fs| >= 1
    ensures |r| == |fs| && r[0] == p + fs[0] && r[1..] == fs[1..]
  {
    [p + fs[0]] + fs[1..]
  }

  lemma PrefixEmpty(fs: seq<string>)
    requires |fs| >= 1
    ensures Prefix("", fs) == fs
  {
    assert "" + fs[0] == fs[0];
  }

  lemma PrefixSeparator(p: string, fs: seq<string>)
    ensures Prefix(p, [""] + fs) == [p] + fs
  {
    assert ([""] + fs)[0] == "" && ([""] + fs)[1..] == fs;
    assert p + "" == p;
  }

  lemma PrefixPrefix(a: string, b: string, fs: seq<string>)
    requires |fs| >= 1
    ensures Prefix(a, Prefix(b, fs)) == Prefix(a + b, fs)
  {
    assert a + (b + fs[0]) == (a + b) + fs[0];
  }

  /**
   * The fields of `s` read from the left, starting inside quotes when `inQuotes`: a `"`
   * inside quotes followed by another `"` is one literal quote; any other `"` toggles
   * the state and is dropped; a `,` outside quotes ends a field; every other character
   * belongs to the current field.
   */
  function Lex(s: string, inQuotes: bool): (r: seq<string>)
    ensures |r| >= 1
    decreases |s|
  {
    if |s| == 0 then [""]
    else if s[0] == '"' then
      if inQuotes && |s| >= 2 && s[1] == '"' then Prefix("\"", Lex(s[2..], true))
      else Lex(s[1..], !inQuotes)
    else if s[0] == ',' && !inQuotes then [""] + Lex(s[1..], false)
    else Prefix([s[0]], Lex(s[1..], inQuotes))
  }

  /** `parseCSVLine`: the fields of a line. */
  function Fields(line: string): seq<string> {
    Lex(line, false)
  }

  /** The loop of `parseCSVLine`, as the source runs it, with its `i++` skip over an escaped quote. */
  method ParseCsvLine(line: string) returns (values: seq<string>)
    ensures values == Fields(line)
  {
    values := [];
    var current := "";
    var inQuotes := false;
    var i := 0;
    assert line[0..] == line;
    PrefixEmpty(Lex(line, false));
    while i < |line|
      invariant i <= |line|
      invariant Fields(line) == values + Prefix(current, Lex(line[i..], inQuotes))
      decreases |line| - i
    {
      var c := line[i];
      assert line[i..][0] == c && line[i..][1..] == line[i + 1..];
      if c == '"' {
        if inQuotes && i + 1 < |line| && line[i + 1] == '"' {
          assert line[i..][1] == '"' && line[i..][2..] == line[i + 2..];
          PrefixPrefix(current, "\"", Lex(line[i + 2..], true));
          current := current + "\"";
          i := i + 2;
        } else {
          inQuotes := !inQuotes;
          i := i + 1;
        }
      } else if c == ',' && !inQuotes {
        PrefixEmpty(Lex(line[i + 1..], false));
        PrefixSeparator(current, Lex(line[i + 1..], false));
        values := values + [current];
        current := "";
        i := i + 1;
      } else {
        PrefixPrefix(current, [c], Lex(line[i + 1..], inQuotes));
        current := current + [c];
        i := i + 1;
      }
    }
    assert line[i..] == [];
    assert current + "" == current;
    values := values + [current];
  }

  /** The commas that `Lex` reads outside quotes. */
  function SeparatorCount(s: string, inQuotes: bool): nat
    decreases |s|
  {
    if |s| == 0 then 0
    else if s[0] == '"' then
      if inQuotes && |s| >= 2 && s[1] == '"' then SeparatorCount(s[2..], true)
      else SeparatorCount(s[1..], !inQuotes)
    else if s[0] == ',' && !inQuotes then 1 + SeparatorCount(s[1..], false)
    else SeparatorCount(s[1..], inQuotes)
  }

  /** A line has one field more than it has commas outside quotes. */
  lemma {:induction false} FieldCount(s: string, inQuotes: bool)
    ensures |Lex(s, inQuotes)| == SeparatorCount(s, inQuotes) + 1
    decreases |s|
  {
    if |s| > 0 {
      if s[0] == '"' && inQuotes && |s| >= 2 && s[1] == '"' {
        FieldCount(s[2..], true);
      } else if s[0] == '"' {
        FieldCount(s[1..], !inQuotes);
      } else if s[0] == ',' && !inQuotes {
        FieldCount(s[1..], false);
      } else {
        FieldCount(s[1..], inQuotes);
      }
    }
  }

  /** Without quotes, a line's fields are its comma-separated parts, characters unchanged and in order. */
  lemma {:induction false} UnquotedFields(s: string)
    requires '"' !in s
    ensures Fields(s) == Split(s, ',')
    decreases |s|
  {
    if |s| > 0 {
      UnquotedFields(s[1..]);
    }
  }

  // ---------------------------------------------------------------------
  // Export escaping
  // ---------------------------------------------------------------------

  /** `value.replace(/"/g, '""')`: every quote doubled. */
  function DoubleQuotes(s: string): (r: string)
    ensures '"' !in s ==> r == s
    decreases |s|
  {
    if |s| == 0 then ""
    else (if s[0] == '"' then "\"\"" else [s[0]]) + DoubleQuotes(s[1..])
  }

  /** A string field as `exportToCSV` writes it: quoted, with quotes doubled, when it holds a comma or a quote. */
  function EscapeText(s: string): string {
    if ',' in s || '"' in s then "\"" + DoubleQuotes(s) + "\"" else s
  }

  /** A cell value handed to `exportToCSV`; a number is represented by the text it prints as. */
  datatype ExportValue = Missing | Str(text: string) | Num(printed: string)

  /** The field written for a value: null and undefined become "", strings are escaped, numbers print as they are. */
  function EscapeValue(v: ExportValue): string {
    match v
    case Missing => ""
    case Str(s) => EscapeText(s)
    case Num(p) => p
  }

  /** One line of `exportToCSV`: the row's values under the headers, escaped and comma-joined. */
  function ExportLine(headers: seq<string>, row: map<string, ExportValue>): string {
    Join(seq(|headers|, j requires 0 <= j < |headers| => EscapeValue(if headers[j] in row then row[headers[j]] else Missing)), ',')
  }

  lemma {:induction false} PlainField(f: string, t: string, inQuotes: bool)
    requires ',' !in f && '"' !in f
    ensures Lex(f + t, inQuotes) == Prefix(f, Lex(t, inQuotes))
    decreases |f|
  {
    if |f| > 0 {
      assert (f + t)[0] == f[0] && f[0] in f;
      assert (f + t)[1..] == f[1..] + t;
      PlainField(f[1..], t, inQuotes);
      assert Lex(f + t, inQuotes) == Prefix([f[0]], Lex(f[1..] + t, inQuotes));
      PrefixPrefix([f[0]], f[1..], Lex(t, inQuotes));
      assert [f[0]] + f[1..] == f;
    } else {
      assert f + t == t;
      PrefixEmpty(Lex(t, inQuotes));
    }
  }

  /** Inside quotes, `""` reads as one literal quote. */
  lemma LexEscapedQuote(rest: string)
    ensures Lex("\"\"" + rest, true) == Prefix("\"", Lex(rest, true))
  {
    assert ("\"\"" + rest)[2..] == rest;
  }

  /** Inside quotes, any character but a quote belongs to the field. */
  lemma LexQuotedChar(c: char, rest: string)
    requires c != '"'
    ensures Lex([c] + rest, true) == Prefix([c], Lex(rest, true))
  {
    assert ([c] + rest)[1..] == rest;
  }

  /** Outside quotes, a quote opens them. */
  lemma LexOpeningQuote(rest: string)
    ensures Lex("\"" + rest, false) == Lex(rest, true)
  {
    assert ("\"" + rest)[1..] == rest;
  }

  /** A closing quote before the end of the line or a comma leaves the quotes. */
  lemma LexClosingQuote(t: string)
    requires t == [] || t[0] == ','
    ensures Lex("\"" + t, true) == Lex(t, false)
  {
    assert ("\"" + t)[1..] == t;
  }

  /** Inside quotes, a field with its quotes doubled reads back as the field, whatever follows it. */
  lemma {:induction false} DoubledField(f: string, u: string)
    ensures Lex(DoubleQuotes(f) + u, true) == Prefix(f, Lex(u, true))
    decreases |f|
  {
    if |f| == 0 {
      assert DoubleQuotes(f) + u == u;
      PrefixEmpty(Lex(u, true));
    } else {
      var head := if f[0] == '"' then "\"\"" else [f[0]];
      var rest := DoubleQuotes(f[1..]) + u;
      assert DoubleQuotes(f) + u == head + rest;
      DoubledField(f[1..], u);
      if f[0] == '"' {
        LexEscapedQuote(rest);
      } else {
        LexQuotedChar(f[0], rest);
      }
      PrefixPrefix([f[0]], f[1..], Lex(u, true));
      assert [f[0]] + f[1..] == f;
    }
  }

  /** A quoted field with its quotes doubled, before the end of the line or a comma, reads back as the field. */
  lemma QuotedField(f: string, t: string)
    requires t == [] || t[0] == ','
    ensures Lex("\"" + DoubleQuotes(f) + "\"" + t, false) == Prefix(f, Lex(t, false))
  {
    assert "\"" + DoubleQuotes(f) + "\"" + t == "\"" + (DoubleQuotes(f) + ("\"" + t));
    LexOpeningQuote(DoubleQuotes(f) + ("\"" + t));
    DoubledField(f, "\"" + t);
    LexClosingQuote(t);
  }

  /** An escaped field, followed by the end of the line or a comma, reads back as the field. */
  lemma EscapedField(f: string, t: string)
    requires t == [] || t[0] == ','
    ensures Lex(EscapeText(f) + t, false) == Prefix(f, Lex(t, false))
  {
    if ',' in f || '"' in f {
      assert EscapeText(f) == "\"" + DoubleQuotes(f) + "\"";
      QuotedField(f, t);
    } else {
      PlainField(f, t, false);
    }
  }

  /** Escaping the fields and joining them with commas, then parsing the line, gives the fields back. */
  lemma {:induction false} ExportParseRoundTrip(fs: seq<string>)
    requires |fs| >= 1
    ensures Fields(Join(seq(|fs|, j requires 0 <= j < |fs| => EscapeText(fs[j])), ',')) == fs
    decreases |fs|
  {
    var es := seq(|fs|, j requires 0 <= j < |fs| => EscapeText(fs[j]));
    if |fs| == 1 {
      EscapedField(fs[0], []);
      assert EscapeText(fs[0]) + [] == EscapeText(fs[0]) == Join(es, ',');
      assert fs[0] + "" == fs[0];
      assert fs == [fs[0]];
    } else {
      var rest := seq(|fs| - 1, j requires 0 <= j < |fs| - 1 => EscapeText(fs[1..][j]));
      assert es[1..] == rest;
      ExportParseRoundTrip(fs[1..]);
      var t := [','] + Join(rest, ',');
      assert Join(es, ',') == EscapeText(fs[0]) + t;
      EscapedField(fs[0], t);
      assert t[0] == ',' && t[1..] == Join(rest, ',');
      assert Lex(t, false) == [""] + Lex(Join(rest, ','), false);
      PrefixSeparator(fs[0], Lex(Join(rest, ','), false));
      assert [fs[0]] + fs[1..] == fs;
    }
  }

  /** A row of strings exported under its headers parses back to its values, header by header. */
  lemma ExportLineRoundTrip(headers: seq<string>, row: map<string, ExportValue>)
    requires |headers| >= 1
    requires forall h :: h in headers ==> h in row && row[h].Str?
    ensures var fs := Fields(ExportLine(headers, row));
            |fs| == |headers| && forall j :: 0 <= j < |headers| ==> fs[j] == row[headers[j]].text
  {
    var fs := seq(|headers|, j requires 0 <= j < |headers| => row[headers[j]].text);
    ExportParseRoundTrip(fs);
    assert seq(|headers|, j requires 0 <= j < |headers| => EscapeValue(if headers[j] in row then row[headers[j]] else Missing))
        == seq(|fs|, j requires 0 <= j < |fs| => EscapeText(fs[j]));
  }

  // ---------------------------------------------------------------------
  // The whole text
  // ---------------------------------------------------------------------

  /** A value of a parsed row: a string, or the number `parseFloat` reads from the given text. */
  datatype Value = Text(text: string) | Number(source: string)

  /** The conversion of a trimmed value, with `!isNaN(value)` given as `numeric`. */
  function Convert(value: string, numeric: string -> bool): (v: Value)
    ensures v.Number? <==> value != "" && value != "-" && numeric(value)
    ensures v.Number? ==> v.source == value
    ensures v.Text? ==> v.text == value
  {
    if value != "" && value != "-" && numeric(value) then Number(value) else Text(value)
  }

  /** Every field trimmed and converted. */
  function Converted(values: seq<string>, numeric: string -> bool): seq<Value> {
    seq(|values|, j requires 0 <= j < |values| => Convert(Trim(values[j]), numeric))
  }

  /** The object built by `headers.forEach`: each header set, in order, to its value. */
  function RowOf(headers: seq<string>, cells: seq<Value>): (r: Record<Value>)
    requires |cells| == |headers|
    ensures ValidRecord(r)
    decreases |headers|
  {
    if |headers| == 0 then EmptyRecord()
    else
      var n := |headers| - 1;
      Put(RowOf(headers[..n], cells[..n]), headers[n], cells[n])
  }

  lemma RowOfStep(headers: seq<string>, cells: seq<Value>, k: nat)
    requires |cells| == |headers| && k < |headers|
    ensures RowOf(headers[..k + 1], cells[..k + 1]) == Put(RowOf(headers[..k], cells[..k]), headers[k], cells[k])
  {
    assert headers[..k + 1][..k] == headers[..k] && cells[..k + 1][..k] == cells[..k];
  }

  /** Putting the next header into a record keyed by the ones before it keys it by one header more. */
  lemma PutKeys<V>(r: Record<V>, hs: seq<string>, n: nat, v: V)
    requires n < |hs| && ValidRecord(r) && forall h :: h in r.values <==> h in hs[..n]
    ensures forall h :: h in Put(r, hs[n], v).values <==> h in hs[..n + 1]
  {
    assert hs[..n + 1] == hs[..n] + [hs[n]];
    forall h ensures h in Put(r, hs[n], v).values <==> h in hs[..n + 1] {
      assert h in hs[..n + 1] <==> h in hs[..n] || h == hs[n];
    }
  }

  /** A row's keys are exactly its headers. */
  lemma {:induction false} RowOfKeys(headers: seq<string>, cells: seq<Value>)
    requires |cells| == |headers|
    ensures forall h :: h in RowOf(headers, cells).values <==> h in headers
    decreases |headers|
  {
    if |headers| > 0 {
      var n := |headers| - 1;
      RowOfKeys(headers[..n], cells[..n]);
      assert RowOf(headers, cells) == Put(RowOf(headers[..n], cells[..n]), headers[n], cells[n]);
      PutKeys(RowOf(headers[..n], cells[..n]), headers, n, cells[n]);
      assert headers[..n + 1] == headers;
    }
  }

  /** The first header is the row's first key. */
  lemma {:induction false} RowOfFirstKey(headers: seq<string>, cells: seq<Value>)
    requires |cells| == |headers| && |headers| >= 1
    ensures |RowOf(headers, cells).keys| >= 1 && RowOf(headers, cells).keys[0] == headers[0]
    decreases |headers|
  {
    var n := |headers| - 1;
    var front := RowOf(headers[..n], cells[..n]);
    assert RowOf(headers, cells) == Put(front, headers[n], cells[n]);
    if n > 0 {
      RowOfFirstKey(headers[..n], cells[..n]);
      assert headers[..n][0] == headers[0];
      assert front.keys[..|front.keys|][0] == headers[0];
    } else {
      assert front == EmptyRecord();
    }
  }

  /** Putting one key leaves another key's value alone. */
  lemma PutKeepsOther<V>(r: Record<V>, k: string, v: V, x: string)
    requires ValidRecord(r) && x in r.values && x != k
    ensures x in Put(r, k, v).values && Put(r, k, v).values[x] == r.values[x]
  {
  }

  /** Within the first `k` columns, a header holds the value of the last column under it. */
  lemma {:induction false} PrefixLastWins(headers: seq<string>, cells: seq<Value>, k: nat, j: nat)
    requires |cells| == |headers| && j < k <= |headers|
    requires forall m :: j < m < k ==> headers[m] != headers[j]
    ensures headers[j] in RowOf(headers[..k], cells[..k]).values && RowOf(headers[..k], cells[..k]).values[headers[j]] == cells[j]
    decreases k
  {
    var front := RowOf(headers[..k - 1], cells[..k - 1]);
    RowOfStep(headers, cells, k - 1);
    if j < k - 1 {
      PrefixLastWins(headers, cells, k - 1, j);
      PutKeepsOther(front, headers[k - 1], cells[k - 1], headers[j]);
    }
  }

  /** A header holds the value of the last column under it. */
  lemma RowOfLastWins(headers: seq<string>, cells: seq<Value>, j: nat)
    requires |cells| == |headers| && j < |headers|
    requires forall m :: j < m < |headers| ==> headers[m] != headers[j]
    ensures headers[j] in RowOf(headers, cells).values && RowOf(headers, cells).values[headers[j]] == cells[j]
  {
    PrefixLastWins(headers, cells, |headers|, j);
    RowOfWhole(headers, cells);
  }

  /** The method behind `headers.forEach`, as the source runs it. */
  method BuildRow(headers: seq<string>, values: seq<string>, numeric: string -> bool) returns (row: Record<Value>)
    requires |values| == |headers|
    ensures row == RowOf(headers, Converted(values, numeric))
  {
    ghost var cells := Converted(values, numeric);
    row := EmptyRecord();
    for index := 0 to |headers|
      invariant row == RowOf(headers[..index], cells[..index])
    {
      var cell := Convert(Trim(values[index]), numeric);
      assert cell == cells[index];
      RowOfStep(headers, cells, index);
      row := Put(row, headers[index], cell);
    }
    RowOfWhole(headers, cells);
  }

  /** The row built from every header is the row of the line. */
  lemma RowOfWhole(headers: seq<string>, cells: seq<Value>)
    requires |cells| == |headers|
    ensures RowOf(headers[..|headers|], cells[..|headers|]) == RowOf(headers, cells)
  {
    assert headers[..|headers|] == headers && cells[..|headers|] == cells;
  }

  /** A data line is kept when it is not blank and has a field per header. */
  predicate Keeps(line: string, headers: seq<string>) {
    Trim(line) != "" && |Fields(line)| == |headers|
  }

  /** What a data line yields: its row, or nothing when it is dropped. */
  function Candidate(line: string, headers: seq<string>, numeric: string -> bool): Option<Record<Value>> {
    if Keeps(line, headers) then Some(RowOf(headers, Converted(Fields(line), numeric))) else None
  }

  /** What each data line yields, in order. */
  function Candidates(lines: seq<string>, headers: seq<string>, numeric: string -> bool): seq<Option<Record<Value>>> {
    seq(|lines|, i requires 0 <= i < |lines| => Candidate(lines[i], headers, numeric))
  }

  /** One turn of the loop of `parseCSV`: a blank line and a line of the wrong width give nothing. */
  method ReadDataLine(line: string, headers: seq<string>, numeric: string -> bool) returns (row: Option<Record<Value>>)
    ensures row.None? <==> Trim(line) == "" || |Fields(line)| != |headers|
    ensures row == Candidate(line, headers, numeric)
  {
    if Trim(line) == "" {
      return None;
    }
    var values := ParseCsvLine(line);
    if |values| != |headers| {
      return None;
    }
    var built := BuildRow(headers, values, numeric);
    row := Some(built);
  }

  /** The header of a text: its first line split on every comma, quotes or not, and trimmed. */
  function Headers(text: string): (hs: seq<string>)
    ensures var first := Split(Trim(text), '\n')[0];
            |hs| == |Split(first, ',')| && forall j :: 0 <= j < |hs| ==> hs[j] == Trim(Split(first, ',')[j])
  {
    var parts := Split(Split(Trim(text), '\n')[0], ',');
    seq(|parts|, j requires 0 <= j < |parts| => Trim(parts[j]))
  }

  /** `parseCSV`: the rows of the kept data lines, in order. */
  function ParseCsv(text: string, numeric: string -> bool): seq<Record<Value>> {
    var lines := Split(Trim(text), '\n');
    Present(Candidates(lines[1..], Headers(text), numeric))
  }

  /** `parseCSV`, as the source runs it. */
  method ParseCsvText(text: string, numeric: string -> bool) returns (data: seq<Record<Value>>)
    ensures data == ParseCsv(text, numeric)
  {
    var lines := Split(Trim(text), '\n');
    var parts := Split(lines[0], ',');
    var headers := seq(|parts|, j requires 0 <= j < |parts| => Trim(parts[j]));
    assert headers == Headers(text);
    var dataLines := lines[1..];
    ghost var candidates := Candidates(dataLines, headers, numeric);
    data := [];
    for i := 1 to |lines|
      invariant data == Present(candidates[..i - 1])
    {
      PresentStep(candidates, i - 1);
      // dataLines[i - 1] is lines[i]
      var row := ReadDataLine(dataLines[i - 1], headers, numeric);
      CandidatesAt(dataLines, headers, numeric, i - 1);
      if row.Some? {
        data := data + [row.value];
      }
    }
    WholePrefix(candidates);
  }

  /** The candidate of a line is that line's. */
  lemma CandidatesAt(lines: seq<string>, headers: seq<string>, numeric: string -> bool, j: nat)
    requires j < |lines|
    ensures Candidates(lines, headers, numeric)[j] == Candidate(lines[j], headers, numeric)
  {
  }

  /** The rows of some data lines are the rows of the kept ones, each of them and nothing else. */
  lemma LinesRows(lines: seq<string>, hs: seq<string>, numeric: string -> bool)
    ensures |Present(Candidates(lines, hs, numeric))| <= |lines|
    ensures forall r :: r in Present(Candidates(lines, hs, numeric)) <==>
              exists i :: 0 <= i < |lines| && Keeps(lines[i], hs) && r == RowOf(hs, Converted(Fields(lines[i]), numeric))
  {
    var c := Candidates(lines, hs, numeric);
    forall r | r in Present(c)
      ensures exists i :: 0 <= i < |lines| && Keeps(lines[i], hs) && r == RowOf(hs, Converted(Fields(lines[i]), numeric))
    {
      var k := PresentIndex(c, r);
      assert c[k] == Candidate(lines[k], hs, numeric);
    }
    forall i | 0 <= i < |lines| && Keeps(lines[i], hs)
      ensures RowOf(hs, Converted(Fields(lines[i]), numeric)) in Present(c)
    {
      assert c[i] == Candidate(lines[i], hs, numeric);
      PresentHas(c, i);
    }
  }

  /**
   * A parsed row is the row of some kept data line, and every kept data line gives one;
   * the header line gives none.
   */
  lemma ParseCsvRows(text: string, numeric: string -> bool, lines: seq<string>, hs: seq<string>)
    requires lines == Split(Trim(text), '\n') && hs == Headers(text)
    ensures |ParseCsv(text, numeric)| <= |lines| - 1
    ensures forall r :: r in ParseCsv(text, numeric) <==>
              exists i :: 1 <= i < |lines| && Keeps(lines[i], hs) && r == RowOf(hs, Converted(Fields(lines[i]), numeric))
  {
    var data := lines[1..];
    assert ParseCsv(text, numeric) == Present(Candidates(data, hs, numeric));
    LinesRows(data, hs, numeric);
    assert forall i :: 1 <= i < |lines| ==> data[i - 1] == lines[i];
    assert forall k :: 0 <= k < |data| ==> data[k] == lines[k + 1];
  }

  /**
   * Each cell of a parsed row: the row of a kept data line is among the parsed rows, and
   * under a header that no later column repeats it holds that column's field trimmed, as
   * a number exactly when the trimmed text is neither "" nor "-" and reads as a number,
   * and as the text itself otherwise.
   */
  lemma ParsedCell(text: string, numeric: string -> bool, lines: seq<string>, hs: seq<string>, i: nat, j: nat)
    requires lines == Split(Trim(text), '\n') && hs == Headers(text)
    requires 1 <= i < |lines| && Keeps(lines[i], hs) && j < |hs|
    requires forall m :: j < m < |hs| ==> hs[m] != hs[j]
    ensures RowOf(hs, Converted(Fields(lines[i]), numeric)) in ParseCsv(text, numeric)
    ensures hs[j] in RowOf(hs, Converted(Fields(lines[i]), numeric)).values
    ensures var v := RowOf(hs, Converted(Fields(lines[i]), numeric)).values[hs[j]];
            var t := Trim(Fields(lines[i])[j]);
              (v == Number(t) || v == Text(t)) &&
              (v.Number? <==> t != "" && t != "-" && numeric(t))
  {
    ParseCsvRows(text, numeric, lines, hs);
    var cells := Converted(Fields(lines[i]), numeric);
    RowOfLastWins(hs, cells, j);
    assert cells[j] == Convert(Trim(Fields(lines[i])[j]), numeric);
  }
}
