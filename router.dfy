/**
 * The source router of `download_csv`: the URL of one weekly bulletin as a function
 * of (year, week, data type), following the publisher's platform migrations, and the
 * local raw file name the bulletin is saved under.
 */
module SourceRouter {
  import opened Text

  const Host := "https://id-info.jihs.go.jp"
  /** Before the 2023 migration: one folder per year and one per `{year}{WW}`. */
  const LegacyBase := "https://id-info.jihs.go.jp/niid/images/idwr/sokuho/"
  /** After the 2023 migration, without the locale segment. */
  const RapidBase := "https://id-info.jihs.go.jp/surveillance/idwr/rapid/"
  /** After the 2025 per-type migrations: the `/jp/` locale segment. */
  const LocaleRapidBase := "https://id-info.jihs.go.jp/surveillance/idwr/jp/rapid/"

  /** (y1, w1) comes no later than (y2, w2) in (year, week) order. */
  predicate NoLater(y1: int, w1: int, y2: int, w2: int) {
    y1 < y2 || (y1 == y2 && w1 <= w2)
  }

  /** The legacy platform served 2012W37 through 2023W01, both ends included. */
  predicate LegacyPeriod(year: int, week: int) {
    NoLater(2012, 37, year, week) && NoLater(year, week, 2023, 1)
  }

  /**
   * When a data type has moved to the locale (`/jp/rapid/`) layout, outside the legacy
   * period: trend from 2025 onwards in weeks 11 and later of each year, zensu from
   * 2025W12, ari always, teiten from 2025; any other type never.
   */
  predicate UsesLocale(dataType: string, year: int, week: int) {
    if dataType == "trend" then year >= 2025 && week >= 11
    else if dataType == "zensu" then NoLater(2025, 12, year, week)
    else if dataType == "ari" then true
    else if dataType == "teiten" then year >= 2025
    else false
  }

  /** The bulletin's file name, the same on every platform: the week zero-padded. */
  function FileName(year: int, week: int, dataType: string): string {
    if dataType == "trend" then "week" + Pad2(week) + "-trend.csv"
    else IntToString(year) + "-" + Pad2(week) + "-" + dataType + ".csv"
  }

  function LegacyFolder(year: int, week: int): string {
    LegacyBase + ("idwr-" + IntToString(year) + "/" + IntToString(year) + Pad2(week) + "/")
  }

  /** Folder on the migrated platforms: the week in the path is not padded. */
  function RapidFolder(base: string, year: int, week: int): string {
    base + (IntToString(year) + "/" + IntToString(week) + "/")
  }

  /** The three platform layouts a URL can take. */
  datatype Layout = Legacy | Rapid | LocaleRapid

  /** The decision of `download_csv`, in the order of its `if`/`elif` chain. */
  function Route(year: int, week: int, dataType: string): (layout: Layout)
    ensures layout == Legacy <==> LegacyPeriod(year, week)
    ensures layout == LocaleRapid <==> !LegacyPeriod(year, week) && UsesLocale(dataType, year, week)
    ensures layout == Rapid <==> !LegacyPeriod(year, week) && !UsesLocale(dataType, year, week)
  {
    if (year == 2012 && week >= 37) || (2013 <= year <= 2022) || (year == 2023 && week <= 1) then Legacy
    else if dataType == "trend" then
      if year >= 2025 && week >= 11 then LocaleRapid else Rapid
    else if dataType == "zensu" && (year > 2025 || (year == 2025 && week >= 12)) then LocaleRapid
    else if dataType == "ari" || (dataType == "teiten" && year >= 2025) then LocaleRapid
    else Rapid
  }

  function Folder(layout: Layout, year: int, week: int): string {
    match layout
    case Legacy => LegacyFolder(year, week)
    case Rapid => RapidFolder(RapidBase, year, week)
    case LocaleRapid => RapidFolder(LocaleRapidBase, year, week)
  }

  /**
   * The URL built by `download_csv`. Each of the source's seven templates is the
   * layout's folder followed by the type's file name; RouterBoundaries checks them letter
   * for letter.
   */
  function Url(year: int, week: int, dataType: string): string {
    Folder(Route(year, week, dataType), year, week) + FileName(year, week, dataType)
  }

  lemma StartsWithFolder(f: string, base: string, rest: string, name: string)
    requires f == base + rest
    ensures StartsWith(f + name, base)
  {
    assert (f + name)[..|base|] == base;
  }

  /** A text under one base is not under another base that differs from it at some position. */
  lemma BasesDiffer(s: string, base: string, other: string, k: nat)
    requires StartsWith(s, base) && k < |base| && k < |other| && base[k] != other[k]
    ensures !StartsWith(s, other)
  {
    assert s[k] == base[k];
  }

  /** Where the three bases part: the letter after the host, and the one after `/surveillance/idwr/`. */
  lemma BaseLetters()
    ensures |LegacyBase| > 27 && |RapidBase| > 45 && |LocaleRapidBase| > 45
    ensures LegacyBase[27] == 'n' && RapidBase[27] == 's' && LocaleRapidBase[27] == 's'
    ensures RapidBase[45] == 'r' && LocaleRapidBase[45] == 'j'
  {
  }

  /** The folder of a layout begins with that layout's base. */
  lemma UrlBase(year: int, week: int, dataType: string) returns (base: string)
    ensures base == match Route(year, week, dataType)
                    case Legacy => LegacyBase
                    case Rapid => RapidBase
                    case LocaleRapid => LocaleRapidBase
    ensures StartsWith(Url(year, week, dataType), base)
  {
    var f := Folder(Route(year, week, dataType), year, week);
    var name := FileName(year, week, dataType);
    match Route(year, week, dataType)
    case Legacy =>
      base := LegacyBase;
      StartsWithFolder(f, base, "idwr-" + IntToString(year) + "/" + IntToString(year) + Pad2(week) + "/", name);
    case Rapid =>
      base := RapidBase;
      StartsWithFolder(f, base, IntToString(year) + "/" + IntToString(week) + "/", name);
    case LocaleRapid =>
      base := LocaleRapidBase;
      StartsWithFolder(f, base, IntToString(year) + "/" + IntToString(week) + "/", name);
  }

  /** A URL is under the legacy path exactly in the legacy period. */
  lemma LegacyPathIff(year: int, week: int, dataType: string)
    ensures StartsWith(Url(year, week, dataType), LegacyBase) <==> LegacyPeriod(year, week)
  {
    var base := UrlBase(year, week, dataType);
    if !LegacyPeriod(year, week) {
      BaseLetters();
      BasesDiffer(Url(year, week, dataType), base, LegacyBase, 27);
    }
  }

  /** Outside the legacy period, the `/jp/` segment appears exactly when the type has migrated. */
  lemma LocaleSegmentIff(year: int, week: int, dataType: string)
    ensures StartsWith(Url(year, week, dataType), LocaleRapidBase)
            <==> !LegacyPeriod(year, week) && UsesLocale(dataType, year, week)
  {
    var base := UrlBase(year, week, dataType);
    BaseLetters();
    if LegacyPeriod(year, week) {
      BasesDiffer(Url(year, week, dataType), base, LocaleRapidBase, 27);
    } else if !UsesLocale(dataType, year, week) {
      BasesDiffer(Url(year, week, dataType), base, LocaleRapidBase, 45);
    }
  }

  /** The local raw file name, `{year}-{WW}-{type}.csv`. */
  function RawFileName(year: int, week: int, dataType: string): string {
    IntToString(year) + "-" + Pad2(week) + "-" + dataType + ".csv"
  }

  /** No two bulletins share a raw file name (years and weeks non-negative, type names without `-`). */
  lemma RawFileNameInjective(y1: nat, w1: nat, t1: string, y2: nat, w2: nat, t2: string)
    requires '-' !in t1 && '-' !in t2
    requires RawFileName(y1, w1, t1) == RawFileName(y2, w2, t2)
    ensures y1 == y2 && w1 == w2 && t1 == t2
  {
    var parts1 := RawFileNameParts(y1, w1, t1);
    var parts2 := RawFileNameParts(y2, w2, t2);
    PyIntOfNatToString(y1);
    PyIntOfNatToString(y2);
    PyIntOfPad2(w1);
    PyIntOfPad2(w2);
    assert t1 == (t1 + ".csv")[..|t1|];
    assert t2 == (t2 + ".csv")[..|t2|];
  }

  lemma RawFileNameParts(y: nat, w: nat, t: string) returns (parts: seq<string>)
    requires '-' !in t
    ensures parts == Split(RawFileName(y, w, t), '-')
    ensures parts == [NatToString(y), Pad2(w), t + ".csv"]
  {
    var ys, ws, ts := NatToString(y), Pad2(w), t + ".csv";
    assert '-' !in ys && '-' !in ws && '-' !in ts;
    assert RawFileName(y, w, t) == ys + ['-'] + (ws + ['-'] + ts);
    SplitAtFirst(ys, '-', ws + ['-'] + ts);
    SplitAtFirst(ws, '-', ts);
    SplitNoSeparator(ts, '-');
    parts := Split(RawFileName(y, w, t), '-');
  }
}

/** The URLs at the migration boundaries, letter for letter. */
module RouterBoundaries {
  import opened Text
  import opened SourceRouter

  lemma Year2012() ensures IntToString(2012) == "2012" { NatToStringFourDigits(2012); }
  lemma Year2022() ensures IntToString(2022) == "2022" { NatToStringFourDigits(2022); }
  lemma Year2023() ensures IntToString(2023) == "2023" { NatToStringFourDigits(2023); }
  lemma Year2025() ensures IntToString(2025) == "2025" { NatToStringFourDigits(2025); }
  lemma Year2026() ensures IntToString(2026) == "2026" { NatToStringFourDigits(2026); }

  /** A one-digit week is padded with a zero in the file name only. */
  lemma OneDigitWeek(w: nat)
    requires w < 10
    ensures Pad2(w) == ['0', DigitChar(w)] && IntToString(w) == [DigitChar(w)]
  {
  }

  /** A two-digit week is written the same padded and unpadded. */
  lemma TwoDigitWeek(w: nat)
    requires 10 <= w < 100
    ensures Pad2(w) == IntToString(w) == [DigitChar(w / 10), DigitChar(w % 10)]
  {
    NatToStringTwoDigits(w);
  }

  /** First legacy week. */
  lemma Url2012W37()
    ensures Url(2012, 37, "zensu") == LegacyBase + "idwr-2012/201237/" + "2012-37-zensu.csv"
  {
    assert Route(2012, 37, "zensu") == Legacy;
    Folder2012W37();
    Name2012W37();
  }

  lemma Folder2012W37()
    ensures Folder(Legacy, 2012, 37) == LegacyBase + "idwr-2012/201237/"
  {
    Year2012();
    TwoDigitWeek(37);
    assert "idwr-" + IntToString(2012) + "/" + IntToString(2012) + Pad2(37) + "/" == "idwr-" + "2012" + "/" + "2012" + "37" + "/";
    assert "idwr-" + "2012" + "/" + "2012" + "37" + "/" == "idwr-2012/201237/";
  }

  lemma Name2012W37()
    ensures FileName(2012, 37, "zensu") == "2012-37-zensu.csv"
  {
    Year2012();
    TwoDigitWeek(37);
    assert IntToString(2012) + "-" + Pad2(37) + "-" + "zensu" + ".csv" == "2012" + "-" + "37" + "-" + "zensu" + ".csv";
    assert "2012" + "-" + "37" + "-" + "zensu" + ".csv" == "2012-37-zensu.csv";
  }

  /** Last legacy week of 2022. */
  lemma Url2022W52()
    ensures Url(2022, 52, "teiten") == LegacyBase + "idwr-2022/202252/" + "2022-52-teiten.csv"
  {
    assert Route(2022, 52, "teiten") == Legacy;
    Folder2022W52();
    Name2022W52();
  }

  lemma Folder2022W52()
    ensures Folder(Legacy, 2022, 52) == LegacyBase + "idwr-2022/202252/"
  {
    Year2022();
    TwoDigitWeek(52);
    assert "idwr-" + IntToString(2022) + "/" + IntToString(2022) + Pad2(52) + "/" == "idwr-" + "2022" + "/" + "2022" + "52" + "/";
    assert "idwr-" + "2022" + "/" + "2022" + "52" + "/" == "idwr-2022/202252/";
  }

  lemma Name2022W52()
    ensures FileName(2022, 52, "teiten") == "2022-52-teiten.csv"
  {
    Year2022();
    TwoDigitWeek(52);
    assert IntToString(2022) + "-" + Pad2(52) + "-" + "teiten" + ".csv" == "2022" + "-" + "52" + "-" + "teiten" + ".csv";
    assert "2022" + "-" + "52" + "-" + "teiten" + ".csv" == "2022-52-teiten.csv";
  }

  /** The one legacy week of 2023, with the trend file name. */
  lemma Url2023W01()
    ensures Url(2023, 1, "trend") == LegacyBase + "idwr-2023/202301/" + "week01-trend.csv"
  {
    assert Route(2023, 1, "trend") == Legacy;
    Folder2023W01();
    Name2023W01();
  }

  lemma Folder2023W01()
    ensures Folder(Legacy, 2023, 1) == LegacyBase + "idwr-2023/202301/"
  {
    Year2023();
    OneDigitWeek(1);
    assert "idwr-" + IntToString(2023) + "/" + IntToString(2023) + Pad2(1) + "/" == "idwr-" + "2023" + "/" + "2023" + "01" + "/";
    assert "idwr-" + "2023" + "/" + "2023" + "01" + "/" == "idwr-2023/202301/";
  }

  lemma Name2023W01()
    ensures FileName(2023, 1, "trend") == "week01-trend.csv"
  {
    Year2023();
    OneDigitWeek(1);
    assert "week" + Pad2(1) + "-trend.csv" == "week" + "01" + "-trend.csv";
    assert "week" + "01" + "-trend.csv" == "week01-trend.csv";
  }

  /** First week on the migrated platform: unpadded path week, padded file week. */
  lemma Url2023W02()
    ensures Url(2023, 2, "zensu") == RapidBase + "2023/2/" + "2023-02-zensu.csv"
  {
    assert Route(2023, 2, "zensu") == Rapid;
    Folder2023W02();
    Name2023W02();
  }

  lemma Folder2023W02()
    ensures Folder(Rapid, 2023, 2) == RapidBase + "2023/2/"
  {
    Year2023();
    OneDigitWeek(2);
    assert IntToString(2023) + "/" + IntToString(2) + "/" == "2023" + "/" + "2" + "/";
    assert "2023" + "/" + "2" + "/" == "2023/2/";
  }

  lemma Name2023W02()
    ensures FileName(2023, 2, "zensu") == "2023-02-zensu.csv"
  {
    Year2023();
    OneDigitWeek(2);
    assert IntToString(2023) + "-" + Pad2(2) + "-" + "zensu" + ".csv" == "2023" + "-" + "02" + "-" + "zensu" + ".csv";
    assert "2023" + "-" + "02" + "-" + "zensu" + ".csv" == "2023-02-zensu.csv";
  }

  /** Teiten takes the locale segment from the start of 2025. */
  lemma Url2025W10()
    ensures Url(2025, 10, "teiten") == LocaleRapidBase + "2025/10/" + "2025-10-teiten.csv"
  {
    assert Route(2025, 10, "teiten") == LocaleRapid;
    Folder2025W10();
    Name2025W10();
  }

  lemma Folder2025W10()
    ensures Folder(LocaleRapid, 2025, 10) == LocaleRapidBase + "2025/10/"
  {
    Year2025();
    TwoDigitWeek(10);
    assert IntToString(2025) + "/" + IntToString(10) + "/" == "2025" + "/" + "10" + "/";
    assert "2025" + "/" + "10" + "/" == "2025/10/";
  }

  lemma Name2025W10()
    ensures FileName(2025, 10, "teiten") == "2025-10-teiten.csv"
  {
    Year2025();
    TwoDigitWeek(10);
    assert IntToString(2025) + "-" + Pad2(10) + "-" + "teiten" + ".csv" == "2025" + "-" + "10" + "-" + "teiten" + ".csv";
    assert "2025" + "-" + "10" + "-" + "teiten" + ".csv" == "2025-10-teiten.csv";
  }

  /** Trend takes the locale segment from 2025W11. */
  lemma Url2025W11Trend()
    ensures Url(2025, 11, "trend") == LocaleRapidBase + "2025/11/" + "week11-trend.csv"
  {
    assert Route(2025, 11, "trend") == LocaleRapid;
    Folder2025W11Trend();
    Name2025W11Trend();
  }

  lemma Folder2025W11Trend()
    ensures Folder(LocaleRapid, 2025, 11) == LocaleRapidBase + "2025/11/"
  {
    Year2025();
    TwoDigitWeek(11);
    assert IntToString(2025) + "/" + IntToString(11) + "/" == "2025" + "/" + "11" + "/";
    assert "2025" + "/" + "11" + "/" == "2025/11/";
  }

  lemma Name2025W11Trend()
    ensures FileName(2025, 11, "trend") == "week11-trend.csv"
  {
    Year2025();
    TwoDigitWeek(11);
    assert "week" + Pad2(11) + "-trend.csv" == "week" + "11" + "-trend.csv";
    assert "week" + "11" + "-trend.csv" == "week11-trend.csv";
  }

  /** Zensu is still without it in 2025W11. */
  lemma Url2025W11Zensu()
    ensures Url(2025, 11, "zensu") == RapidBase + "2025/11/" + "2025-11-zensu.csv"
  {
    assert Route(2025, 11, "zensu") == Rapid;
    Folder2025W11Zensu();
    Name2025W11Zensu();
  }

  lemma Folder2025W11Zensu()
    ensures Folder(Rapid, 2025, 11) == RapidBase + "2025/11/"
  {
    Year2025();
    TwoDigitWeek(11);
    assert IntToString(2025) + "/" + IntToString(11) + "/" == "2025" + "/" + "11" + "/";
    assert "2025" + "/" + "11" + "/" == "2025/11/";
  }

  lemma Name2025W11Zensu()
    ensures FileName(2025, 11, "zensu") == "2025-11-zensu.csv"
  {
    Year2025();
    TwoDigitWeek(11);
    assert IntToString(2025) + "-" + Pad2(11) + "-" + "zensu" + ".csv" == "2025" + "-" + "11" + "-" + "zensu" + ".csv";
    assert "2025" + "-" + "11" + "-" + "zensu" + ".csv" == "2025-11-zensu.csv";
  }

  /** Zensu takes the locale segment from 2025W12. */
  lemma Url2025W12()
    ensures Url(2025, 12, "zensu") == LocaleRapidBase + "2025/12/" + "2025-12-zensu.csv"
  {
    assert Route(2025, 12, "zensu") == LocaleRapid;
    Folder2025W12();
    Name2025W12();
  }

  lemma Folder2025W12()
    ensures Folder(LocaleRapid, 2025, 12) == LocaleRapidBase + "2025/12/"
  {
    Year2025();
    TwoDigitWeek(12);
    assert IntToString(2025) + "/" + IntToString(12) + "/" == "2025" + "/" + "12" + "/";
    assert "2025" + "/" + "12" + "/" == "2025/12/";
  }

  lemma Name2025W12()
    ensures FileName(2025, 12, "zensu") == "2025-12-zensu.csv"
  {
    Year2025();
    TwoDigitWeek(12);
    assert IntToString(2025) + "-" + Pad2(12) + "-" + "zensu" + ".csv" == "2025" + "-" + "12" + "-" + "zensu" + ".csv";
    assert "2025" + "-" + "12" + "-" + "zensu" + ".csv" == "2025-12-zensu.csv";
  }

  /** Ari always has the locale segment. */
  lemma Url2026W01()
    ensures Url(2026, 1, "ari") == LocaleRapidBase + "2026/1/" + "2026-01-ari.csv"
  {
    assert Route(2026, 1, "ari") == LocaleRapid;
    Folder2026W01();
    Name2026W01();
  }

  lemma Folder2026W01()
    ensures Folder(LocaleRapid, 2026, 1) == LocaleRapidBase + "2026/1/"
  {
    Year2026();
    OneDigitWeek(1);
    assert IntToString(2026) + "/" + IntToString(1) + "/" == "2026" + "/" + "1" + "/";
    assert "2026" + "/" + "1" + "/" == "2026/1/";
  }

  lemma Name2026W01()
    ensures FileName(2026, 1, "ari") == "2026-01-ari.csv"
  {
    Year2026();
    OneDigitWeek(1);
    assert IntToString(2026) + "-" + Pad2(1) + "-" + "ari" + ".csv" == "2026" + "-" + "01" + "-" + "ari" + ".csv";
    assert "2026" + "-" + "01" + "-" + "ari" + ".csv" == "2026-01-ari.csv";
  }

  /** Trend early in a year (week below 11) is without it, even after 2025. */
  lemma Url2026W05Trend()
    ensures Url(2026, 5, "trend") == RapidBase + "2026/5/" + "week05-trend.csv"
  {
    assert Route(2026, 5, "trend") == Rapid;
    Folder2026W05Trend();
    Name2026W05Trend();
  }

  lemma Folder2026W05Trend()
    ensures Folder(Rapid, 2026, 5) == RapidBase + "2026/5/"
  {
    Year2026();
    OneDigitWeek(5);
    assert IntToString(2026) + "/" + IntToString(5) + "/" == "2026" + "/" + "5" + "/";
    assert "2026" + "/" + "5" + "/" == "2026/5/";
  }

  lemma Name2026W05Trend()
    ensures FileName(2026, 5, "trend") == "week05-trend.csv"
  {
    Year2026();
    OneDigitWeek(5);
    assert "week" + Pad2(5) + "-trend.csv" == "week" + "05" + "-trend.csv";
    assert "week" + "05" + "-trend.csv" == "week05-trend.csv";
  }
}
