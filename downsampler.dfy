/** Grouping tags of the daily downsampler (`daily_downsampler`): each day gets a
    text tag naming its year (`YS`), its month (`MS`) or its meteorological season
    (`QS-DEC`, where December belongs to the winter of the following year); days
    with equal tags are grouped together. */
module Downsampler {
  import opened Wrappers
  import opened Decimal

  type Month = m: int | 1 <= m <= 12 witness 1

  /** The calendar fields of one time step that the tags are built from. */
  datatype Date = Date(year: int, month: Month)

  datatype DownsampleError =
    | IndexError
    | RuntimeError(message: string)

  const SeasonNames: seq<string> :=
    ["DJF", "DJF", "MAM", "MAM", "MAM", "JJA", "JJA", "JJA", "SON", "SON", "SON", "DJF"]

  /** The season of a month: three consecutive months share one, December joining
      January and February. */
  function Season(m: Month): (s: string)
    ensures |s| == 3
    ensures s == "DJF" <==> m == 12 || m <= 2
    ensures s == "MAM" <==> 3 <= m <= 5
    ensures s == "JJA" <==> 6 <= m <= 8
    ensures s == "SON" <==> 9 <= m <= 11
  {
    SeasonNames[m - 1]
  }

  /** Four-digit year text. */
  function YearText(y: int): string {
    FormatInt(y, 4)
  }

  /** Two-digit month text. */
  function MonthText(m: Month): string {
    FormatInt(m, 2)
  }

  /** The month text reads back as the month, which is how the season is looked up. */
  lemma MonthTextRoundTrip(m: Month)
    ensures |MonthText(m)| == 2
    ensures ParseInt(MonthText(m)) == Some(m as int)
    ensures MonthText(m) == "12" <==> m == 12
  {
    assert Pow10(2) == 100;
    FormatIntExactWidth(m, 2);
    FormatParseRoundTrip(m, 2);
    FormatParseRoundTrip(12, 2);
    assert FormatInt(12, 2) == "12";
  }

  /** `YS` tag: the year, padded to four digits; it reads back as the year. */
  function YearTag(d: Date): (r: string)
    ensures 4 <= |r| && ParseInt(r) == Some(d.year)
  {
    FormatParseRoundTrip(d.year, 4);
    YearText(d.year)
  }

  /** `MS` tag: the year followed by the two-digit month; the two parts read back as
      the year and the month. */
  function MonthTag(d: Date): (r: string)
    ensures 6 <= |r|
    ensures ParseInt(r[..|r| - 2]) == Some(d.year)
    ensures r[|r| - 2..] == MonthText(d.month) && ParseInt(r[|r| - 2..]) == Some(d.month as int)
  {
    var y, m := YearText(d.year), MonthText(d.month);
    FormatParseRoundTrip(d.year, 4);
    MonthTextRoundTrip(d.month);
    assert (y + m)[..|y + m| - 2] == y && (y + m)[|y + m| - 2..] == m;
    y + m
  }

  /** The year a season is counted in: December counts in the following year. */
  function SeasonYear(d: Date): int {
    if d.month == 12 then d.year + 1 else d.year
  }

  /** `QS-DEC` tag with the year of December padded like every other year: the season
      year followed by the season; the year part reads back as the season year. */
  function SeasonTag(d: Date): (r: string)
    ensures 7 <= |r|
    ensures ParseInt(r[..|r| - 3]) == Some(SeasonYear(d)) && r[|r| - 3..] == Season(d.month)
  {
    var y, q := YearText(SeasonYear(d)), Season(d.month);
    FormatParseRoundTrip(SeasonYear(d), 4);
    assert (y + q)[..|y + q| - 3] == y && (y + q)[|y + q| - 3..] == q;
    y + q
  }

  /** The year text of a `QS-DEC` tag as written: for December the year text is read
      back with `int`, incremented and written with `str`, without padding to four
      digits; other months keep the year text. */
  function ShiftedYearText(y: string, m: string): string {
    if m == "12" && ParseInt(y).Some? then Str(ParseInt(y).value + 1) else y
  }

  /** `QS-DEC` tag as written: the shifted year text followed by the season. */
  function SeasonTagAsWritten(d: Date): string {
    ShiftedYearText(YearText(d.year), MonthText(d.month)) + Season(d.month)
  }

  /** The tag as written still names the right season year, read back with `int`, and
      only December's tag can differ from the padded one. */
  lemma AsWrittenReadsBack(d: Date)
    ensures var r := SeasonTagAsWritten(d);
      && 4 <= |r|
      && ParseInt(r[..|r| - 3]) == Some(SeasonYear(d)) && r[|r| - 3..] == Season(d.month)
      && (d.month != 12 ==> r == SeasonTag(d))
  {
    FormatParseRoundTrip(d.year, 4);
    MonthTextRoundTrip(d.month);
    StrRoundTrip(d.year + 1);
    var y := ShiftedYearText(YearText(d.year), MonthText(d.month));
    var q := Season(d.month);
    assert ParseInt(y) == Some(SeasonYear(d));
    assert (y + q)[..|y + q| - 3] == y && (y + q)[|y + q| - 3..] == q;
  }

  /** Two days share a `YS` tag exactly when they fall in the same year. */
  lemma YearTagsGroupYears(d1: Date, d2: Date)
    ensures YearTag(d1) == YearTag(d2) <==> d1.year == d2.year
  {
    if YearTag(d1) == YearTag(d2) {
      FormatIntInjective(d1.year, d2.year, 4);
    }
  }

  /** A text ending in a fixed-length suffix splits uniquely. */
  lemma SplitSuffix(a: string, b: string, c: string, e: string)
    requires |b| == |e| && a + b == c + e
    ensures a == c && b == e
  {
    assert a == (a + b)[..|a + b| - |b|];
    assert c == (c + e)[..|c + e| - |e|];
    assert b == (a + b)[|a + b| - |b|..];
    assert e == (c + e)[|c + e| - |e|..];
  }

  /** Two days share an `MS` tag exactly when they fall in the same month of the same
      year. */
  lemma MonthTagsGroupMonths(d1: Date, d2: Date)
    ensures MonthTag(d1) == MonthTag(d2) <==> d1 == d2
  {
    if MonthTag(d1) == MonthTag(d2) {
      MonthTextRoundTrip(d1.month);
      MonthTextRoundTrip(d2.month);
      SplitSuffix(YearText(d1.year), MonthText(d1.month), YearText(d2.year), MonthText(d2.month));
      FormatIntInjective(d1.year, d2.year, 4);
      FormatIntInjective(d1.month, d2.month, 2);
    }
  }

  /** Two days share a `QS-DEC` tag exactly when they fall in the same season of the
      same season year; in particular December of one year, January and February of the
      next share their tag. */
  lemma SeasonTagsGroupSeasons(d1: Date, d2: Date)
    ensures SeasonTag(d1) == SeasonTag(d2) <==>
      SeasonYear(d1) == SeasonYear(d2) && Season(d1.month) == Season(d2.month)
  {
    if SeasonTag(d1) == SeasonTag(d2) {
      SplitSuffix(YearText(SeasonYear(d1)), Season(d1.month), YearText(SeasonYear(d2)), Season(d2.month));
      FormatIntInjective(SeasonYear(d1), SeasonYear(d2), 4);
    }
  }

  /** From year 999 on the year after December has four digits, so the tag as written
      agrees with the padded one. */
  lemma AsWrittenAgreesFromYear999(d: Date)
    requires 999 <= d.year
    ensures SeasonTagAsWritten(d) == SeasonTag(d)
  {
    MonthTextRoundTrip(d.month);
    FormatParseRoundTrip(d.year, 4);
    WideIntegerNeedsNoPadding(d.year + 1);
  }

  /** December of year 1 is tagged "2DJF" but January of year 2 "0002DJF": the
      winter they both belong to is split in two groups. */
  lemma AsWrittenSplitsEarlyWinter()
    ensures SeasonYear(Date(1, 12)) == SeasonYear(Date(2, 1))
    ensures Season(12) == Season(1)
    ensures SeasonTagAsWritten(Date(1, 12)) == "2DJF"
    ensures SeasonTagAsWritten(Date(2, 1)) == "0002DJF"
  {
    MonthTextRoundTrip(12);
    MonthTextRoundTrip(1);
    FormatParseRoundTrip(1, 4);
    assert YearText(1) == "0001";
    assert YearText(2) == "0002";
    assert Str(2) == "2";
  }

  predicate IsFrequency(freq: string) {
    freq == "YS" || freq == "MS" || freq == "QS-DEC"
  }

  /** The tag of one day under a supported frequency, as written: the year, month or
      season year it names is the one read back from it. */
  function TagOf(freq: string, d: Date): (r: string)
    requires IsFrequency(freq)
    ensures 4 <= |r|
    ensures freq == "YS" ==> ParseInt(r) == Some(d.year)
    ensures freq == "MS" ==> ParseInt(r[..|r| - 2]) == Some(d.year) && ParseInt(r[|r| - 2..]) == Some(d.month as int)
    ensures freq == "QS-DEC" ==> ParseInt(r[..|r| - 3]) == Some(SeasonYear(d)) && r[|r| - 3..] == Season(d.month)
  {
    if freq == "YS" then YearTag(d)
    else if freq == "MS" then MonthTag(d)
    else AsWrittenReadsBack(d); SeasonTagAsWritten(d)
  }

  /** The `QS-DEC` loop: appends each day's year text and season, with December's year
      read back, incremented and written with `str`. */
  method SeasonTags(time: seq<Date>, years: seq<string>, months: seq<string>, seasons: seq<string>)
    returns (ys: seq<string>)
    requires |years| == |months| == |seasons| == |time|
    requires forall i :: 0 <= i < |time| ==> years[i] == YearText(time[i].year)
    requires forall i :: 0 <= i < |time| ==> months[i] == MonthText(time[i].month)
    requires forall i :: 0 <= i < |time| ==> seasons[i] == Season(time[i].month)
    ensures |ys| == |time|
    ensures forall i :: 0 <= i < |time| ==> ys[i] == SeasonTagAsWritten(time[i])
  {
    ys := [];
    for i := 0 to |time|
      invariant |ys| == i
      invariant forall j :: 0 <= j < i ==> ys[j] == SeasonTagAsWritten(time[j])
    {
      var m := months[i];
      var s := seasons[i];
      var y := years[i];
      if m == "12" {
        FormatParseRoundTrip(time[i].year, 4);
        y := Str(ParseInt(y).value + 1);
      }
      assert y + s == SeasonTagAsWritten(time[i]);
      ys := ys + [y + s];
    }
  }

  /** Tags of the time steps `time` under `freq`. An empty time axis raises
      IndexError when its first value is inspected; an unknown frequency raises
      RuntimeError. */
  method DownsampleTags(time: seq<Date>, freq: string) returns (r: Result<seq<string>, DownsampleError>)
    ensures |time| == 0 ==> r == Err(IndexError)
    ensures 0 < |time| && !IsFrequency(freq) ==>
      r == Err(RuntimeError("freqency " + freq + " not implemented"))
    ensures 0 < |time| && IsFrequency(freq) ==>
      r.Ok? && |r.value| == |time| && forall i :: 0 <= i < |time| ==> r.value[i] == TagOf(freq, time[i])
  {
    if |time| == 0 {
      return Err(IndexError);
    }
    var n := |time|;
    var years := seq(n, i requires 0 <= i < n => YearText(time[i].year));
    var months := seq(n, i requires 0 <= i < n => MonthText(time[i].month));
    var seasons := seq(n, i requires 0 <= i < n => Season(time[i].month));
    if freq == "YS" {
      r := Ok(years);
    } else if freq == "MS" {
      r := Ok(seq(n, i requires 0 <= i < n => years[i] + months[i]));
    } else if freq == "QS-DEC" {
      var ys := SeasonTags(time, years, months, seasons);
      r := Ok(ys);
    } else {
      r := Err(RuntimeError("freqency " + freq + " not implemented"));
    }
  }
}
