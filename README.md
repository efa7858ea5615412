# kansenshou: a verified model of the bulletin pipeline

This project models the core of the kansenshou pipeline in Dafny. The pipeline collects
Japan's weekly infectious-disease surveillance bulletins (IDWR, "zensu", "teiten", "ari"
and "trend" sheets) and turns them into one table per data type. A small web viewer then
reads the tables back. The model covers:

- **URL routing** (`download_csv`) — `SourceRouter` in `router.dfy`. Three layouts:
  - the legacy `/niid/images/idwr/sokuho/` path for 2012W37–2023W01;
  - the `/surveillance/idwr/rapid/` path;
  - the `/surveillance/idwr/jp/rapid/` path, chosen by data type and date.
- **ISO week dates** (`get_week_dates`) — `Calendar` in `calendar.dfy`. Python's proleptic
  Gregorian ordinals, datetime's range (years 1 to 9999), and the Monday/Sunday of an ISO week.
- **`clean_csv`**, in three parts:
  - the **standard normaliser**, `StandardNormaliser` in `standard.dfy`. It builds the
    header from row 2 (forward-filled disease names) and row 3 (report types), reads the
    data from row 4 on, and puts the 年/週 columns taken from the file name in front;
  - the **trend reshaper**, `TrendReshaper` in `trend.dfy`. A row-by-row scan keeps the
    disease in force and its week columns, and emits one record per year row;
  - the dispatch between the two, `Cleaner` in `clean.dfy`.
- **The merge** (`merge_all_csv`) — `Merger` in `merge.dfy`. Every processed file is read,
  dated with its week's month/start/end, and concatenated. A bad file name aborts the merge;
  a file that cannot be read or dated is skipped.
- **The web viewer's CSV parsing and export escaping** (`parseCSVLine`, `parseCSV`,
  `exportToCSV`) — `CsvParser` in `csv.dfy`.
- **The web viewer's ZIP reader** (`extractCSVFromZip`, plus the chunk-combining loop of
  `decompressDeflate`) — `ZipReader` in `zip.dfy`.

Shared building blocks:

- `wrappers.dfy`: Option, Result, and helpers over sequences of options.
- `text.dfy`: Python's `strip`/`split`/`int()`, JavaScript's `trim`, and decimal printing.
- `tables.dfy`:
  - `Records`: ordered dictionaries, as Python dicts and JavaScript objects keep key order;
  - `Tables`: pandas frames with missing cells, `insert`, `DataFrame(records)` and `concat`.

Python exceptions (IndexError, ValueError, datetime's range errors, pandas' insert errors)
are modelled as `Err` values or `None`. The `try`/`except` that turns them into `False` or
into a skipped file is written out where the source has it. Imperative loops are methods
proved equal to a specification function, and that function's meaning is proved in lemmas.

`get_week_dates` is described as having no error conditions. The code does have them:
`datetime(year, 1, 4)` raises for a year outside 1..9999, and `timedelta` arithmetic
raises when the result leaves datetime's range. The model follows the code
(`Calendar.WeekStart`, `Calendar.WeekStartOk`). In `merge_all_csv` these errors fall
inside the `try`, so such a file is skipped.

## Model

| member | source | states |
|---|---|---|
| SourceRouter.Route | main.py:26-48 | the legacy layout exactly in 2012W37–2023W01; otherwise the `jp/rapid` layout exactly for trend from 2025W11, zensu from 2025W12, ari always and teiten from 2025; otherwise the plain rapid layout |
| SourceRouter.UrlBase | main.py:26-48 | every URL starts with the base of the layout `Route` picks |
| SourceRouter.LegacyPathIff | main.py:26-33 | a URL is under the legacy `/niid/images/idwr/sokuho/` path if and only if the week lies in 2012W37–2023W01 |
| SourceRouter.LocaleSegmentIff | main.py:35-48 | a URL is under `/surveillance/idwr/jp/rapid/` if and only if the week is after the legacy period and the type/date calls for it |
| SourceRouter.RawFileNameInjective | main.py:23 | two bulletins (year, week, type without `-`) never share a local file name |
| SourceRouter.RawFileNameParts | main.py:23 | the local file name splits on `-` back into the year, the two-digit week and `type.csv` |
| RouterBoundaries.Url2012W37 | main.py:31 | the first legacy week, zensu: the exact legacy URL |
| RouterBoundaries.Url2022W52 | main.py:31 | teiten at 2022W52 still uses the legacy URL |
| RouterBoundaries.Url2023W01 | main.py:29 | trend at 2023W01 uses the legacy `weekWW-trend.csv` URL |
| RouterBoundaries.Url2023W02 | main.py:48 | zensu at 2023W02 uses the plain rapid layout with an unpadded week folder |
| RouterBoundaries.Url2025W10 | main.py:45-46 | teiten in 2025 uses `jp/rapid` |
| RouterBoundaries.Url2025W11Trend | main.py:36-37 | trend from 2025W11 uses `jp/rapid` |
| RouterBoundaries.Url2025W11Zensu | main.py:47-48 | zensu at 2025W11 still uses the plain rapid layout |
| RouterBoundaries.Url2025W12 | main.py:43-44 | zensu from 2025W12 uses `jp/rapid` |
| RouterBoundaries.Url2026W01 | main.py:45-46 | ari uses `jp/rapid` |
| RouterBoundaries.Url2026W05Trend | main.py:36-39 | trend in a week below 11 of a later year uses the plain rapid layout (the test is `week >= 11`, not a date comparison) |
| Calendar.FromOrdinal | main.py:290-295 | turning an ordinal back into a date gives a valid date with that ordinal |
| Calendar.FromToOrdinal | main.py:290-298 | ordinals and dates are inverse on datetime's range |
| Calendar.WeekStart | main.py:289-293 | on success, the Monday is week 1's Monday plus 7·(week−1) days, with the whole week in datetime's range |
| Calendar.WeekStartOk | main.py:289-295 | success if and only if the year is in 1..9999 and the Monday and Sunday are in range; a bad year gives the year error |
| Calendar.GetWeekDates | main.py:276-301 | succeeds exactly when the week's Monday and Sunday exist, and fails with the same error otherwise |
| Calendar.WeekIsMondayToSunday | main.py:289-295 | the start is a Monday and the end the Sunday after it |
| Calendar.WeekDatesMeaning | main.py:289-301 | the result is the formatted Monday and Sunday (6 days apart) of the ISO week, and the month of the Monday |
| Calendar.WeekOneHoldsJanuaryFourth | main.py:289-290 | week 1 contains January 4th |
| Calendar.NextWeek | main.py:293 | consecutive weeks start 7 days apart |
| CalendarExamples.Dates2023W01 | main.py:276-301 | 2023W01 is 2023-01-02 to 2023-01-08, month 1 |
| CalendarExamples.Dates2020W53 | main.py:276-301 | 2020W53 is 2020-12-28 to 2021-01-03, month 12 |
| CalendarExamples.After2020W53 | main.py:289-293 | 2021W01 starts the Monday after 2020W53, so week 53 does not run into it |
| CalendarExamples.Week53Of2021IsWeek1Of2022 | main.py:289-293 | week 53 of a 52-week year is not rejected: it is the next year's week 1 |
| Text.Split | main.py:84 | a split always gives at least one piece |
| Text.TrimBy | web/src/utils/csvParser.js:17 | trimming gives "" if and only if the text is all whitespace; otherwise the result starts and ends with a non-space |
| Text.TrimInfix | web/src/utils/csvParser.js:31 | trimming keeps one contiguous piece `s[a..b]` of the text and cuts only whitespace: everything before `a` and everything from `b` on is whitespace |
| Text.PyIntOfDigits | main.py:334 | `int()` of ASCII digits is their decimal value |
| Text.PyIntOfNatToString | main.py:334 | `int()` reads back the decimal text of a natural number |
| Text.PyIntOfPad2 | main.py:335 | `int()` reads back a week written zero-padded to two digits |
| Records.Put | main.py:142 | setting a dictionary key: the key maps to the value, other keys keep theirs, and the key order only grows at the end |
| Tables.Insert | main.py:199-200 | pandas `insert` succeeds if and only if the name is new and the position is within the frame; otherwise it gives the duplicate or the position error; on success the column and its value go in at that position in every row |
| Tables.InsertKeepsDistinct | main.py:199-200 | an insert keeps the column names distinct |
| Tables.FromRecords | main.py:150 | `DataFrame(records)`: columns are the union of the keys in first-seen order, and a cell is the record's value or missing |
| Tables.ConcatShape | main.py:367 | `concat` is rectangular, has distinct columns, the rows of all frames, and exactly the columns of any frame |
| Tables.ConcatCells | main.py:367 | row i of frame k lands at its offset, and each cell is the frame's value for that column or missing |
| Tables.UnionColumnsLeads | main.py:367 | the union of column lists starts with the first list |
| StandardNormaliser.LastLabelIsLast | main.py:178-180 | the disease in force at column i is the last non-blank disease label at or before i, or "" when there is none |
| StandardNormaliser.BuildHeaderNames | main.py:166-190 | the header loop gives, for every column, `都道府県`, `disease_type`, the type alone, or `column_i` |
| StandardNormaliser.HeaderShape | main.py:169-176 | the header has one name per column and starts with `都道府県` |
| StandardNormaliser.ForwardFillExample | main.py:169-190 | a sparse disease row is forward-filled across its report types |
| StandardNormaliser.NormaliseStandard | main.py:159-204 | the standard branch as written equals `Standard` |
| StandardNormaliser.StandardFails | main.py:162-163 | it fails if and only if the sheet has fewer than four rows, or the stem has two parts and the header already names 年 or 週 |
| StandardNormaliser.StandardRows | main.py:193-200 | on success the data are rows 4 on; with a two-part stem they are led by 年/週 columns holding the stem's parts |
| TrendReshaper.SkipTestsAsWritten | main.py:97-105 | skipped rows are exactly the blank first cells, `注`/`疾病` prefixes and `年〜`/`年～` banners; a year row ends in 年 |
| TrendReshaper.WeekColumnsMeaning | main.py:112-117 | the week columns are exactly the columns from 1 on whose cell holds 週, in order, each with its stripped number |
| TrendReshaper.ExtractWeekColumns | main.py:112-117 | the week-header loop equals `WeekColumns` |
| TrendReshaper.BuildRecord | main.py:130-144 | the week-field loop equals `RecordFor` |
| TrendReshaper.RecordForMeaning | main.py:130-144 | a record starts with 報告年, 報告週, 疾病, 年; 報告年, 疾病 and 年 hold the report year, the disease and the year; 報告週 holds the report week when no week column is numbered 報告 (whose key `報告週` would overwrite it); and each week's key holds the cell's stripped value, or "" when it is blank or `-`, from the last column with that week |
| TrendReshaper.ExpandYearPivot | main.py:124-125 | a two-digit year below 50 becomes 20yy, from 50 on 19yy |
| TrendReshaper.ExpandYearKeepsOthers | main.py:126-127 | a year of any other length is kept as written |
| TrendReshaper.ScanRow | main.py:93-146 | one loop pass as written equals `Step` |
| TrendReshaper.HeaderRow | main.py:104-118 | the disease-row branch as written equals `Step` |
| TrendReshaper.YearRow | main.py:120-146 | the year-row branch as written equals `Step` |
| TrendReshaper.ReshapeTrend | main.py:80-156 | the trend branch as written equals `Trend`, and its table always starts with the four identity columns |
| TrendReshaper.StepContext | main.py:104-118 | a row changes the disease and its week columns if and only if it is a disease row followed by a week header; they become the stripped name and that header's week columns |
| TrendReshaper.StepEmits | main.py:120-146 | a row emits a record if and only if it is a year row under a disease with week columns, and the record is `RecordFor` with the widened year |
| TrendReshaper.StepFails | main.py:93-125 | a row fails exactly when it has no cell, or a non-skipped non-year single cell (`row.iloc[1]`), or a two-character year that `int()` rejects under an active disease |
| TrendReshaper.StepLed | main.py:130-135 | an emitted record has distinct keys led by the four identity fields |
| TrendReshaper.TableOfLeads | main.py:149-155 | the written table starts with the identity columns, with records or without |
| TrendExamples.PivotExample | main.py:124-125 | `13` becomes `2013` |
| TrendExamples.DashExample | main.py:141-144 | a `-` cell is written as "" and `10` as `10` |
| TrendExamples.RecordExample | main.py:130-144 | a year row with cells `10` and `-` under weeks 31 and 32 gives `31週` = `10`, `32週` = "" |
| Cleaner.CleanCsv | main.py:78-207 | `clean_csv` as written equals `Clean`; a trend result always starts with the identity columns |
| Cleaner.RawStemParts | main.py:197 | a raw file name's stem splits into the year, the two-digit week and the type |
| Cleaner.StandardCleanFails | main.py:159-207 | for a raw file name, a standard sheet fails if and only if it has fewer than four rows or its header already has 年 or 週 |
| Cleaner.StandardCleanLeads | main.py:193-200 | for a raw file name, the output has columns 年, 週 then the header, and every row starts with the name's year and two-digit week |
| Merger.ReadStem | main.py:332-335 | the stem's first two `-` parts read by `int()`, or nothing when either is not a number |
| Merger.Contribute | main.py:338-356 | the `try` body for one file gives that file's contribution: nothing when it has no table or a step raises, otherwise its annotated table |
| Merger.CollectTables | main.py:328-359 | the loop stops at exactly the first file whose stem has no year and week; otherwise it collects exactly the kept, annotated tables, in file order |
| Merger.MergeAllCsv | main.py:320-367 | the merge loop as written equals `Merge` |
| Merger.MergeOutcomes | main.py:322-363 | no files if and only if the list is empty; abort if and only if some stem has no year/week, at the first such file; no data if and only if every file was skipped |
| Merger.MergeShape | main.py:361-367 | a merge yields a rectangular table with distinct columns, the rows of all kept files, exactly their columns, and 月, 開始日, 終了日 at positions 2–4 |
| Merger.KeptMembers | main.py:330-359 | the kept tables are exactly the annotated tables of the files that were read and dated |
| Merger.KeptDateLed | main.py:344-355 | every kept table has distinct columns with 月, 開始日, 終了日 at positions 2–4 |
| Merger.AnnotatedFails | main.py:345-353 | the inserts fail if and only if the table already has 月, 開始日 or 終了日 |
| Merger.InsertDatesFail | main.py:344-353 | with five distinct names, the inserts fail if and only if the table already holds one of the last three; the guarded first two never fail |
| Merger.InsertDatesFresh | main.py:344-353 | when none of the five names is present, they lead the columns in order and their values lead every row |
| Merger.AnnotateFails | main.py:342-353 | a file is skipped after reading if and only if its week has no dates or it already has one of the date columns |
| Merger.AnnotatedDates | main.py:351-353 | positions 2–4 are 月, 開始日, 終了日, and every row holds the week's month, start and end there |
| Merger.AnnotatedColumns | main.py:344-353 | the annotated columns are the old ones plus the five date columns, three or five more, and stay distinct |
| Merger.AnnotatedFresh | main.py:344-353 | a table without 年/週 gets 年, 週, 月, 開始日, 終了日 in front, and every row the year, week, month and dates |
| Merger.PreparedDateLed | main.py:338-355 | a file that is read and dated becomes a table led by the date columns at positions 2–4 |
| Merger.ProcessedStemNumbers | main.py:249 | the stem of a processed file name gives back its year and week |
| CsvParser.ParseCsvLine | web/src/utils/csvParser.js:52-82 | the character loop as written equals `Fields` |
| CsvParser.FieldCount | web/src/utils/csvParser.js:57-79 | a line has one field more than it has commas outside quotes |
| CsvParser.DoubledField | web/src/utils/csvParser.js:60-64 | inside quotes, a field with every quote doubled reads back as the field |
| CsvParser.QuotedField | web/src/utils/csvParser.js:60-69 | a quoted field with its quotes doubled, followed by the end of the line or a comma, reads back as the field |
| CsvParser.UnquotedFields | web/src/utils/csvParser.js:52-82 | a line without quotes is split at every comma |
| CsvParser.EscapedField | web/src/utils/csvParser.js:101-106 | an escaped field reads back as itself up to the next comma |
| CsvParser.ExportParseRoundTrip | web/src/utils/csvParser.js:96-109 | a row of escaped texts joined with commas parses back into exactly those texts |
| CsvParser.ExportLineRoundTrip | web/src/utils/csvParser.js:95-110 | an exported row of strings parses back to one field per header, holding that header's value |
| CsvParser.ParsedCell | web/src/utils/csvParser.js:29-38 | the row of a kept data line is among the parsed rows, and under a header no later column repeats it holds that column's field trimmed: a number exactly when the trimmed text is not "", not `-` and numeric, and that text otherwise |
| CsvParser.RowOfKeys | web/src/utils/csvParser.js:29-39 | a row object has exactly the header names as keys |
| CsvParser.RowOfFirstKey | web/src/utils/csvParser.js:29-39 | a row object's first key is the first header |
| CsvParser.RowOfLastWins | web/src/utils/csvParser.js:29-39 | a repeated header keeps the value of its last column |
| CsvParser.BuildRow | web/src/utils/csvParser.js:29-39 | the row loop as written equals `RowOf` of the trimmed, converted values |
| CsvParser.ReadDataLine | web/src/utils/csvParser.js:16-41 | a data line gives no row if and only if it is blank or its field count differs from the header's; otherwise the row of its converted fields |
| CsvParser.ParseCsvText | web/src/utils/csvParser.js:6-45 | `parseCSV` as written equals `ParseCsv` |
| CsvParser.LinesRows | web/src/utils/csvParser.js:15-42 | the rows kept are exactly the converted rows of the non-blank lines with one field per header, no more than the lines |
| CsvParser.ParseCsvRows | web/src/utils/csvParser.js:6-45 | `parseCSV` gives at most one row per data line, and a row is in it if and only if some non-blank data line with one field per header yields it |
| ZipReader.FindHeaderMeaning | web/src/utils/zipLoader.js:39-42 | the scan finds the first offset in range holding the local header signature, or none exists |
| ZipReader.ExtractCsvFromZip | web/src/utils/zipLoader.js:33-73 | the byte scan as written equals `Extract` |
| ZipReader.ExtractFinds | web/src/utils/zipLoader.js:39-72 | "no valid file" if and only if no offset in range holds the signature; otherwise the entry at the first signature decides |
| ZipReader.EntryMeaning | web/src/utils/zipLoader.js:44-66 | a slice past the end is a range error; otherwise method 0 gives the stored bytes, method 8 the deflated bytes, and any other method an error |
| ZipReader.U32 | web/src/utils/zipLoader.js:40 | a little-endian 32-bit field is below 2^32 |
| ZipReader.FlattenLength | web/src/utils/zipLoader.js:110 | the total length is the length of the chunks laid end to end |
| ZipReader.FlattenAt | web/src/utils/zipLoader.js:114-117 | each chunk sits at the sum of the lengths before it |
| ZipReader.SetAt | web/src/utils/zipLoader.js:115 | `result.set(chunk, offset)` writes the chunk at the offset and keeps every other element |
| ZipReader.CombineChunks | web/src/utils/zipLoader.js:110-118 | a fresh array of the total length holding the chunks end to end |

## Left out

- Network and file I/O are left out:
  - `urlretrieve`, the file-exists shortcuts, the polite delay and the printing in `download_csv`;
  - `to_csv` and the parquet write of the merge;
  - `fetch` in `loadCSVFromZip`;
  - the Blob, link and DOM steps of `exportToCSV`.

  The model stops at the values these steps would read or write.
- `download_and_process_all` is left out. It is a driver loop over years and weeks with the
  clock (`datetime.now()`) and counters. Only the processed-file name it builds is
  modelled (`Merger.ProcessedStemNumbers`).
- Shift-JIS decoding and the typing of `read_csv` are left out. A sheet is given as a
  rectangular grid of text cells, with missing ones as `None`. Numbers that pandas would
  parse are kept as their text.
- Merger.Annotated: the year, week and month columns hold the decimal text of the integers
  `insert` puts in, not integers. A file read back with 年/週 already present keeps its own
  cells.
- The `sorted` glob is outside the model. The merge takes its files in the order given, and
  each file's table is already read (or `None` when `read_csv` raised).
- DEFLATE decompression (`DecompressionStream`) and UTF-8 text decoding (`TextDecoder`) are
  left out. `ZipReader.Extract` returns the stored or the deflated bytes. Only the loop that
  joins the inflated chunks is modelled.
- ZipReader.EntryMeaning: `uncompressedSize` is read but unused by the source, and so in the
  model. A header with a data descriptor (size 0) yields an empty slice, as in the source.
- CsvParser.ParsedCell: `isNaN`/`parseFloat` are a parameter `numeric` of the model. A numeric
  value is kept as its source text (`Number(source)`), not as a float.
- CsvParser.RowOf: JavaScript puts integer-like keys ahead of the others in an object's key
  order. The model keeps plain insertion order. A header named `__proto__` gives no key in
  JavaScript: assigning a string or a number to it goes to the inherited `__proto__` setter,
  which ignores such values. The model and `CsvParser.RowOfKeys` treat it as an ordinary key.
- Calendar.FormatDate: the year is written as its decimal digits without padding, as
  glibc's `strftime('%Y')` does. A platform that zero-pads `%Y` to four digits would write
  years below 1000 differently.
- CsvParser.ExportLine: the header line of `exportToCSV` is the keys of the first row joined
  unescaped, and the line join uses `\n`. The model states the round trip for data lines of
  strings; numbers and missing values are written as printed or "".
- The guard `lines.length === 0` in `parseCSV` is dead: splitting always gives at least one
  piece (`Text.Split`). The model has no branch for it.
- The trend branch's `col_idx < len(row)` test holds for every week column, since a sheet is
  rectangular. The model keeps the test.
- Python's `int()` is modelled for ASCII and full-width digits with an optional sign and
  surrounding spaces. Underscores and other Unicode digits are not modelled.
