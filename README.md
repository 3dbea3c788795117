# Fire-weather drought indices and event helpers of xclim, in Dafny

This project models two parts of xclim and proves properties of the model.

1. The per-cell numerical kernels of the forest-fire drought indices in
   `xclim/indices/fire/_ffdi.py`. These are:
   - the Keetch-Byram drought index (KBDI) day recurrence, with its runoff budget and its
     clamp to [0, 203.2] mm;
   - the Griffiths drought factor, with the 20-day rainfall-window scan that finds rainfall
     events and keeps the smallest ratio N^1.3 / (N^1.3 + P - 2);
   - the two limiting policies (`xlim` and `discrete`), the final cap at 10, the dispatch
     on the limiting function's name, and the slice that drops the first 19 days.
2. The event-sequence helpers and period tagging of `xclim/utils.py`. These are:
   - the event end and start flags (`get_ev_end`, `get_ev_start`);
   - the event length (`get_ev_length`): its change-mask/cumulative-sum labelling, its
     one-dimensional counting path and its method-2 fill loop;
   - the grouping tags of `daily_downsampler` (`YS`, `MS`, `QS-DEC`).

Conventions:

- Floating-point numbers are modelled as `real`.
- `np.exp` and `N**1.3` are function parameters, `exp` and `pow`. The ghost predicates
  `IsExp` and `IsPower` state the only facts used about them: exp is positive and at most
  1 for non-positive arguments, and a power of a positive base is positive.
- `x**2` is written `x * x`.
- The loops of the kernels are methods. `KeetchByramDroughtIndex` and `DroughtFactorDays`
  write into output arrays, as the kernels do; `WindowX`, `LengthsByFill`, `SeasonTags`
  and `DownsampleTags` work on sequences, as the source's inner loop, its index
  arithmetic and its Python lists do.
- Each method is proved equal to a specification function: `Series`, `XOfWindow`,
  `FactorAt`, `RunLengths`, `SeasonTagAsWritten` (for `SeasonTags`) or `TagOf`. `Series`
  and `XOfWindow` are recursive over the days; the others are defined directly, from the
  window, the runs and the tag of one day. The properties are proved as lemmas about
  these functions.
- One grid cell (for the fire kernels) or one time series (for the event helpers) is
  modelled. Broadcasting over the other dimensions is left out.

Files:

| file | module | content |
|---|---|---|
| `wrappers.dfy` | `Wrappers` | `Option` and `Result` |
| `real_functions.dfy` | `RealFunctions` | `IsExp`, `IsPower`, `Min` and small lemmas on real division |
| `kbdi.dfy` | `KeetchByram` | the KBDI recurrence |
| `event_scan.dfy` | `EventScan` | the x-function of a 20-day window |
| `griffiths.dfy` | `Griffiths` | the limited drought factor and its day loop |
| `decimal.dfy` | `Decimal` | Python's `str`, `'{:0wd}'.format` and `int` on integers |
| `event_flags.dfy` | `EventFlags` | `get_ev_end`, `get_ev_start` |
| `event_length.dfy` | `EventLength` | `get_ev_length` |
| `downsampler.dfy` | `Downsampler` | the tags of `daily_downsampler` |

Behaviour of the code that the model keeps:

- A series shorter than 20 days is not an error. The drought factor is then empty.
- A limiting code other than 0 or 1 reaches the kernel only through a direct call. It applies
  only the final cap at 10.
- Restarting the KBDI from the last emitted index alone does not reproduce a single
  run in general. The remaining runoff is not carried across calls and restarts at 5 mm.
  - `SeriesAppend` proves the continuation with the whole state carried.
  - `ContinuationAfterDryDay` proves the index-only continuation when the first stretch
    ends on a day without rain.
- A day without rain raises the KBDI only when the evapotranspiration factor
  0.968·exp(0.0875·T + 1.5552) − 8.3 is not negative. `DryWarmDayNonDecreasing` carries
  that condition (`Evaporative`). A saturated index stays saturated on every dry day
  (`DrySpellStaysSaturated`).

## Model

| member | source | states |
|---|---|---|
| KeetchByram.Initial | xclim/indices/fire/_ffdi.py:46-65 | the state before the first day carries the given initial index and the full 5 mm runoff capacity |
| KeetchByram.AvailableRunoff | xclim/indices/fire/_ffdi.py:68-70 | a day without rain restores the full 5 mm capacity, any other day keeps the remaining runoff; a capacity in [0, 5] stays in [0, 5] |
| KeetchByram.Runoff | xclim/indices/fire/_ffdi.py:72-76 | the runoff is the smaller of the day's rainfall and the available capacity |
| KeetchByram.Evapotranspiration | xclim/indices/fire/_ffdi.py:79-84 | it is zero at a saturated index; below saturation it is non-negative on a warm day (`Evaporative`) and negative otherwise |
| KeetchByram.StepByEffectiveRain | xclim/indices/fire/_ffdi.py:68-92 | one day's index is the previous index less the effective rain plus the evapotranspiration, clamped; with non-negative rain it lies between the clamped values for losing all the rainfall and losing none |
| KeetchByram.Run | xclim/indices/fire/_ffdi.py:65-94 | after at least one day the carried index lies in [0, 203.2] |
| KeetchByram.Clamp | xclim/indices/fire/_ffdi.py:87-92 | the result lies in [0, 203.2]; an index already in range is unchanged, a negative one becomes 0 and one above 203.2 becomes 203.2 |
| KeetchByram.EffectiveRain | xclim/indices/fire/_ffdi.py:68-78 | with non-negative inputs the rain that lowers the index is between 0 and the day's rainfall; up to 5 mm of rain at full runoff capacity lowers nothing |
| KeetchByram.DayStep | xclim/indices/fire/_ffdi.py:68-94 | one day always leaves the index in [0, 203.2], and the remaining runoff capacity is the available capacity less the day's runoff |
| KeetchByram.Series | xclim/indices/fire/_ffdi.py:67-95 | one index per day |
| KeetchByram.SeriesInRange | xclim/indices/fire/_ffdi.py:67-95 | every emitted index lies in [0, 203.2], whatever the starting state |
| KeetchByram.SeriesAt | xclim/indices/fire/_ffdi.py:67-95 | day d of the output is the index reached after days 0..d |
| KeetchByram.RunStep | xclim/indices/fire/_ffdi.py:79-85 | day d's evapotranspiration uses the index left by day d-1 |
| KeetchByram.SeriesNext | xclim/indices/fire/_ffdi.py:67-95 | day d+1's output is day d's state advanced by one day |
| KeetchByram.RunoffInRange | xclim/indices/fire/_ffdi.py:65-94 | with non-negative rainfall the remaining runoff stays in [0, 5] |
| KeetchByram.DryDayRestoresRunoff | xclim/indices/fire/_ffdi.py:69-94 | a day without rain ends with the full 5 mm runoff capacity |
| KeetchByram.SmallRainAfterDryDay | xclim/indices/fire/_ffdi.py:69-92 | after a dry day, up to 5 mm of rain is all runoff: the index only gains the evapotranspiration |
| KeetchByram.SaturatedDryDay | xclim/indices/fire/_ffdi.py:79-92 | a dry day at 203.2 stays at 203.2 at any temperature |
| KeetchByram.DryWarmDayNonDecreasing | xclim/indices/fire/_ffdi.py:79-92 | a dry day with non-negative evapotranspiration factor does not lower an in-range index |
| KeetchByram.DrySpellNonDecreasing | xclim/indices/fire/_ffdi.py:67-95 | over warm dry days the output never decreases from day to day |
| KeetchByram.DrySpellStaysSaturated | xclim/indices/fire/_ffdi.py:67-95 | without rain, once the output reaches 203.2 it stays there |
| KeetchByram.RunAppend | xclim/indices/fire/_ffdi.py:65-94 | running two stretches in turn, carrying index and runoff, is running their concatenation |
| KeetchByram.SeriesAppend | xclim/indices/fire/_ffdi.py:65-95 | the output of a concatenation is the first output followed by the second stretch's output from the carried state |
| KeetchByram.SeriesAppendFirst | xclim/indices/fire/_ffdi.py:65-95 | the days of the first stretch are emitted as if the second were absent |
| KeetchByram.SeriesAppendSecond | xclim/indices/fire/_ffdi.py:65-95 | day e of the second stretch is emitted as from the state the first stretch leaves |
| KeetchByram.ContinuationAfterDryDay | xclim/indices/fire/_ffdi.py:65-95 | when the first stretch ends dry, restarting from its last index reproduces the single run |
| KeetchByram.KeetchByramDroughtIndex | xclim/indices/fire/_ffdi.py:46-95 | the output array is the day-by-day series of the recurrence and every entry lies in [0, 203.2] |
| RealFunctions.Min | xclim/indices/fire/_ffdi.py:156 | the result is at most both arguments and equal to one of them |
| EventScan.ScanStart | xclim/indices/fire/_ffdi.py:135-138 | a window starts with no open event, zero total and peak, and x = 1 |
| EventScan.EventRatio | xclim/indices/fire/_ffdi.py:155 | an event's ratio lies strictly between 0 and 1 |
| EventScan.Absorb | xclim/indices/fire/_ffdi.py:144-149 | an event day lengthens the open event, keeps x, and leaves a total and peak above 2 mm with N in 1..20 |
| EventScan.Close | xclim/indices/fire/_ffdi.py:151-160 | closing resets the open event and never raises x |
| EventScan.ScanStep | xclim/indices/fire/_ffdi.py:139-160 | one window day keeps the scan state consistent (reset event has zero total and peak; x in (0, 1]) |
| EventScan.ScanAfter | xclim/indices/fire/_ffdi.py:135-160 | the state after any number of window days is consistent |
| EventScan.XOfWindow | xclim/indices/fire/_ffdi.py:135-160 | the x-function lies in (0, 1] |
| EventScan.Trailing | xclim/indices/fire/_ffdi.py:140-145 | the open event's length is the number of consecutive event days just read |
| EventScan.RunTotal | xclim/indices/fire/_ffdi.py:146 | the total of a non-empty run of event days exceeds 2 mm |
| EventScan.LastPeak | xclim/indices/fire/_ffdi.py:147-149 | the peak day lies inside the run |
| EventScan.PeakIsLastMaximum | xclim/indices/fire/_ffdi.py:147-149 | the peak day has the largest rainfall of the run and every later day strictly less, so ties go to the last day |
| EventScan.StartShape | xclim/indices/fire/_ffdi.py:144-149 | an event day after a non-event day opens a one-day event |
| EventScan.ExtendShape | xclim/indices/fire/_ffdi.py:144-149 | an event day extends the open run's total and peak day |
| EventScan.AbsorbShape | xclim/indices/fire/_ffdi.py:144-149 | after an event day the open event is the trailing run, with its total and last peak |
| EventScan.OpenShapeStep | xclim/indices/fire/_ffdi.py:139-160 | one day keeps the open event equal to the trailing run of event days |
| EventScan.OpenEventShape | xclim/indices/fire/_ffdi.py:139-160 | at every point the open event is the trailing run, and none is open after the window |
| EventScan.TrailingOfEvent | xclim/indices/fire/_ffdi.py:140-145 | a run of event days a..b-1 that starts the window or follows a non-event day has as many days as the open-event counter shows at b |
| EventScan.ClosingStep | xclim/indices/fire/_ffdi.py:151-160 | a step that closes an event closes a maximal run and lowers x to the minimum with its ratio; otherwise x is unchanged |
| EventScan.CloseAtWindowEnd | xclim/indices/fire/_ffdi.py:151-160 | an event day that ends the window closes the one event ending there |
| EventScan.WindowEndRatio | xclim/indices/fire/_ffdi.py:151-160 | the run ending on the window's last day is an event, and closing it takes the minimum of x and its ratio |
| EventScan.CloseAfterRun | xclim/indices/fire/_ffdi.py:151-160 | the first non-event day after a run closes exactly that run |
| EventScan.NothingCloses | xclim/indices/fire/_ffdi.py:139-160 | any other day closes no event and leaves x unchanged |
| EventScan.MinimumStep | xclim/indices/fire/_ffdi.py:135-160 | one day takes x from the minimum over the events closed before it to the minimum over those closed after it |
| EventScan.ScanKeepsMinimum | xclim/indices/fire/_ffdi.py:135-160 | x is the minimum of 1 and the ratios of all events closed so far |
| EventScan.XIsMinimumOverEvents | xclim/indices/fire/_ffdi.py:135-160 | the window's x is at most every event's ratio and equals one of them, or 1 without events |
| EventScan.NoEventIffUnitX | xclim/indices/fire/_ffdi.py:138-160 | x is 1 exactly when no day of the window exceeds 2 mm |
| EventScan.QuietPrefixKeepsStart | xclim/indices/fire/_ffdi.py:135-150 | days without events leave the scan at its start state |
| EventScan.SeenEventLowersX | xclim/indices/fire/_ffdi.py:139-160 | after an event day, an event is open or x is below 1 |
| EventScan.WindowX | xclim/indices/fire/_ffdi.py:135-160 | the inner loop computes the window's x-function |
| Griffiths.LimitingCode | xclim/indices/fire/_ffdi.py:322-327 | "xlim" selects 0, "discrete" selects 1, any other name is an error |
| Griffiths.KbdiRangeDefinesXLimit | xclim/indices/fire/_ffdi.py:162-166 | for every deficit in [0, 203.2], the divisor of the branch that the deficit selects (below 20 or from 20 on) is non-zero |
| Griffiths.XLimit | xclim/indices/fire/_ffdi.py:162-166 | the limit on x is positive for deficits in [0, 203.2] |
| Griffiths.DiscreteCeiling | xclim/indices/fire/_ffdi.py:177-187 | the ceiling is between 6 and 10 |
| Griffiths.DiscreteCeilingMonotone | xclim/indices/fire/_ffdi.py:177-187 | a larger deficit never lowers the ceiling, and 25, 42, 65, 100 open the bands 7, 8, 9, 10 |
| Griffiths.LimitedX | xclim/indices/fire/_ffdi.py:162-168 | under `xlim` x becomes the smaller of x and the limit; otherwise x is unchanged |
| Griffiths.QuadraticPositive | xclim/indices/fire/_ffdi.py:170-175 | the drought-factor divisor 40x²+x+1 is positive for every x |
| Griffiths.RawFactor | xclim/indices/fire/_ffdi.py:170-175 | for positive x and a deficit of at least -30 mm the unlimited factor is not negative |
| Griffiths.CappedFactor | xclim/indices/fire/_ffdi.py:177-192 | the result is at most 10, at most the input, at most the band ceiling under `discrete`, equal to the input when no limit applies, equal to the band ceiling under `discrete` when the input exceeds it and to 10 otherwise when the input exceeds 10, and non-negative for non-negative input |
| Griffiths.WindowFactor | xclim/indices/fire/_ffdi.py:162-192 | a window's factor is at most 10, and at most the band ceiling under `discrete` |
| Griffiths.FactorAt | xclim/indices/fire/_ffdi.py:130-192 | day d's factor, from the window of days d-19..d, is at most 10, and at most the band ceiling of day d's deficit under `discrete` |
| Griffiths.NoEventFactor | xclim/indices/fire/_ffdi.py:135-175 | a window without rainfall events yields the factor for x = 1 |
| Griffiths.WindowFactorInRange | xclim/indices/fire/_ffdi.py:162-192 | for a deficit in [0, 203.2] every window's factor lies in [0, 10] under either policy |
| Griffiths.KbdiDrivenFactorInRange | xclim/indices/fire/_ffdi.py:109-194 | with the KBDI of the same days as deficit, every factor from day 20 on lies in [0, 10] |
| Griffiths.DroughtFactorDays | xclim/indices/fire/_ffdi.py:128-194 | day d from 19 on receives the limited factor of window d-19..d; earlier slots are untouched |
| Griffiths.GriffithsDroughtFactor | xclim/indices/fire/_ffdi.py:322-342 | an invalid name fails before any computation; otherwise the result holds max(0, n-19) factors, the k-th being day k+19's factor, each at most 10 |
| Decimal.Digits | xclim/utils.py:61 | the decimal digits of a natural number, at least one, a single one exactly below 10 |
| Decimal.Str | xclim/utils.py:61 | `str(v)` reads back as v with `int` |
| Decimal.ZeroPad | xclim/utils.py:37-38 | padding reaches the width unless the text is already longer |
| Decimal.FormatInt | xclim/utils.py:37-38 | the zero-padded text is at least as long as the width |
| Decimal.ParseInt | xclim/utils.py:61 | a successful parse needs a non-empty text |
| Decimal.DigitsRoundTrip | xclim/utils.py:61 | reading the digits of v gives back v |
| Decimal.ZerosParseToZero | xclim/utils.py:61 | a text of zeros reads as 0 |
| Decimal.LeadingZerosIgnored | xclim/utils.py:61 | leading zeros do not change the value read |
| Decimal.PaddedDigitsRoundTrip | xclim/utils.py:61 | zero-padded digits read back as the number |
| Decimal.FormatParseRoundTrip | xclim/utils.py:59-61 | `int` of the zero-padded text of v is v, for every width and sign |
| Decimal.NegativeRoundTrip | xclim/utils.py:59-61 | the same round trip for negative integers, whose sign counts towards the width |
| Decimal.ParseNegative | xclim/utils.py:61 | a minus sign followed by digits reads as the negated value of the digits |
| Decimal.StrRoundTrip | xclim/utils.py:61 | `str` is the width-0 format and reads back |
| Decimal.FormatIntInjective | xclim/utils.py:37-38 | equal padded texts come from equal integers |
| Decimal.DigitsLengthBelow | xclim/utils.py:38 | a number below 10^k has at most k digits |
| Decimal.DigitsLengthAtLeast | xclim/utils.py:61 | a number of at least 10^k has more than k digits |
| Decimal.FormatIntExactWidth | xclim/utils.py:38 | a natural number below 10^w fills exactly w characters |
| Decimal.WideIntegerNeedsNoPadding | xclim/utils.py:61 | from 1000 on, 4-digit padding and `str` agree |
| EventFlags.EventEnds | xclim/utils.py:192-198 | an end flag per day; an empty series is an error |
| EventFlags.EventStarts | xclim/utils.py:215-219 | a start flag per day; an empty series is an error |
| EventFlags.EndsMarkRunEnds | xclim/utils.py:179-199 | on a 0/1 series the end flags are 0/1, and 1 exactly on the last day of each run of 1s |
| EventFlags.StartsMarkRunStarts | xclim/utils.py:202-220 | on a 0/1 series the start flags are 0/1, and 1 exactly on the first day of each run of 1s |
| EventFlags.StartsAreReversedEnds | xclim/utils.py:192-219 | for any integer series, the start flags are the end flags of the reversed series, reversed |
| EventFlags.StartsSum | xclim/utils.py:215-219 | the start flags sum to the first value plus the number of up-steps |
| EventFlags.EndsSum | xclim/utils.py:192-198 | the end flags sum to the number of down-steps plus the last value |
| EventFlags.StepsTelescope | xclim/utils.py:179-220 | on a 0/1 series up-steps minus down-steps is last minus first |
| EventFlags.StartsBalanceEnds | xclim/utils.py:179-220 | on a 0/1 series every event that starts also ends: the flag counts agree |
| EventFlags.EndsExample | xclim/utils.py:187 | [0,0,1,1,1,0,0,1] gives the end flags [0,0,0,0,1,0,0,1] |
| EventFlags.StartsExample | xclim/utils.py:210 | [1,0,1,1,1,0,0,1] gives the start flags [1,0,1,0,0,0,0,1] |
| EventLength.RunStart | xclim/utils.py:87-94 | a day's run begins at a break at or before it and is constant up to it |
| EventLength.RunEnd | xclim/utils.py:87-94 | a day's run ends at the series' end or at a break after it and is constant until then |
| EventLength.RunLength | xclim/utils.py:87-94 | a run length is between 1 and the series length |
| EventLength.RunLengths | xclim/utils.py:87-94 | one run length per day |
| EventLength.RunLengthsBounded | xclim/utils.py:87-94 | every entry is in 1..n, and days of one constant stretch get the same length |
| EventLength.RunBetweenBreaks | xclim/utils.py:87-94 | a stretch between two breaks with none inside is the run of each of its days |
| EventLength.StartBetweenBreaks | xclim/utils.py:87-94 | inside such a stretch the run begins at its first day |
| EventLength.EndBetweenBreaks | xclim/utils.py:87-94 | inside such a stretch the run ends at its end |
| EventLength.ChangeMask | xclim/utils.py:105-116 | one mask entry per day |
| EventLength.CumSum | xclim/utils.py:119 | one running total per entry |
| EventLength.Labels | xclim/utils.py:105-119 | one label per day |
| EventLength.LabelsStartAtOne | xclim/utils.py:105-119 | the first label is 1 |
| EventLength.LabelsStep | xclim/utils.py:105-119 | each label exceeds the previous one by 1 exactly where the value changes, and by 0 elsewhere |
| EventLength.SameLabelIffConstant | xclim/utils.py:105-119 | labels never decrease, and two days share a label exactly when the series is constant between them |
| EventLength.SameLabelIsSameRun | xclim/utils.py:119-128 | a day carries another day's label exactly when it lies in that day's run |
| EventLength.FirstLabelIffBreak | xclim/utils.py:157 | a label first occurs exactly where a new run begins |
| EventLength.Count | xclim/utils.py:126 | the count is at most the series length, and zero exactly when the value is absent |
| EventLength.CountOfInterval | xclim/utils.py:126 | a value found exactly on positions a..b-1 is counted b-a times |
| EventLength.LengthsByCount | xclim/utils.py:122-128 | the counting path is an error exactly on the empty series |
| EventLength.ByCountIsRunLengths | xclim/utils.py:122-128 | counting each label gives every day its run length |
| EventLength.SegmentLengths | xclim/utils.py:87-94 | every day of a stretch between two breaks has the stretch's length |
| EventLength.DocumentedExampleBinary | xclim/utils.py:93 | [0,0,1,1,1,0,0,1,1,1,1] gives the lengths [2,2,3,3,3,2,2,4,4,4,4] |
| EventLength.DocumentedExampleMultiValued | xclim/utils.py:94 | [0,1,1,2,2,0,0,0] gives the lengths [1,2,2,2,2,3,3,3] |
| EventLength.FirstOccurrences | xclim/utils.py:157 | the listed positions are positions of the series |
| EventLength.FirstOccurrencesOrdered | xclim/utils.py:157 | positions are listed in increasing order, exactly those whose value does not occur earlier |
| EventLength.FirstOccurrencesIncreasing | xclim/utils.py:157 | positions are listed in strictly increasing order |
| EventLength.FirstOccurrencesMembership | xclim/utils.py:157 | a position is listed exactly when its value does not occur earlier |
| EventLength.FirstOccurrencesSortedByValue | xclim/utils.py:157 | on labels, index order is value order, which is how `np.unique` orders them |
| EventLength.BreaksOfLabels | xclim/utils.py:157 | the labels' first occurrences are exactly the breaks, in order, starting at day 0 |
| EventLength.FillStartsAtZero | xclim/utils.py:157-160 | the fill starts from day 0, the first label's first occurrence |
| EventLength.FillAdvances | xclim/utils.py:159-163 | each first occurrence the fill loop reaches lies after the previous one |
| EventLength.RunBetweenConsecutive | xclim/utils.py:160-163 | every day between two consecutive first occurrences has their distance as run length |
| EventLength.RunAfterLast | xclim/utils.py:164 | every day from the last first occurrence on has the distance to the end as run length |
| EventLength.NoBreakBetween | xclim/utils.py:160-164 | no break lies strictly between consecutive first occurrences, or after the last one |
| EventLength.LengthsByFill | xclim/utils.py:154-165 | method 2 gives every day its run length; an empty series is an error |
| EventLength.LengthsByFillAsWritten | xclim/utils.py:107-114 | as written for several dimensions, a column is labelled as if its first value were 1 |
| EventLength.StartWriteSplitsFirstRun | xclim/utils.py:107-114 | a column opening with two equal values other than 1 gets length 1 on day 0 although its run has at least 2 days |
| Downsampler.Season | xclim/utils.py:43 | December, January and February share DJF; March to May MAM; June to August JJA; September to November SON |
| Downsampler.MonthTextRoundTrip | xclim/utils.py:38-60 | the month text has 2 characters, reads back as the month, and is "12" exactly for December |
| Downsampler.YearTag | xclim/utils.py:37-48 | the `YS` tag has at least 4 characters and reads back as the year |
| Downsampler.MonthTag | xclim/utils.py:37-51 | the `MS` tag ends with the 2-character month text; its two parts read back as the year and the month |
| Downsampler.SeasonTag | xclim/utils.py:52-62 | the padded `QS-DEC` tag ends with the season; its year part reads back as the season year, the following year for December |
| Downsampler.AsWrittenReadsBack | xclim/utils.py:52-62 | the `QS-DEC` tag as written ends with the season and its year part still reads back as the season year; it differs from the padded tag only in December |
| Downsampler.YearTagsGroupYears | xclim/utils.py:46-48 | two days share a `YS` tag exactly when they share the year |
| Downsampler.SplitSuffix | xclim/utils.py:51 | a concatenation with a fixed-length suffix splits uniquely |
| Downsampler.MonthTagsGroupMonths | xclim/utils.py:49-51 | two days share an `MS` tag exactly when they share year and month |
| Downsampler.SeasonTagsGroupSeasons | xclim/utils.py:52-63 | two days share a `QS-DEC` tag exactly when they share season and season year |
| Downsampler.AsWrittenAgreesFromYear999 | xclim/utils.py:61 | from year 999 on the unpadded December year equals the padded one |
| Downsampler.AsWrittenSplitsEarlyWinter | xclim/utils.py:61 | December of year 1 and January of year 2 are in the same winter but get tags "2DJF" and "0002DJF" |
| Downsampler.TagOf | xclim/utils.py:46-63 | a day's tag, as written, has at least 4 characters and reads back as the day's year (`YS`), year and month (`MS`), or season year followed by the season (`QS-DEC`) |
| Downsampler.SeasonTags | xclim/utils.py:52-63 | the `QS-DEC` loop gives one tag per day, each day's tag as written |
| Downsampler.DownsampleTags | xclim/utils.py:36-65 | an empty time axis is an IndexError, an unknown frequency a RuntimeError with its message; otherwise one tag per day, the day's tag as written under the frequency |

## Left out

- NaN propagation and floating-point rounding. Reals stand for float64; the values of `np.exp` and `N**1.3` are only constrained by `IsExp` and `IsPower`.
- `mcarthur_forest_fire_danger_index`: a single floating-point formula without state. It is not part of this model.
- The `xr.apply_ufunc` wrappers, `convert_units_to` and the numba `guvectorize` broadcasting. The model is one cell; equal series lengths, which the vectorised signature enforces, are preconditions.
- KeetchByramDroughtIndex: the output array must not alias the inputs. The vectorised call allocates a fresh output.
- DroughtFactorDays: under `xlim`, each deficit must leave the limit's divisor non-zero. Under `xlim`, the code divides by zero at deficits of -1/0.1135 and 270.525/1.267, which lie outside the KBDI's range [0, 203.2] (`KbdiRangeDefinesXLimit`).
- GriffithsDroughtFactor: the same precondition on the deficits under `xlim`.
- WindowFactorInRange: the lower bound 0 is proved only for deficits in [0, 203.2]. For deficits below -30 the unlimited factor can be negative, which the code lets through.
- In `xclim/utils.py`, the following are left out:
  - the `Indicator` class;
  - the `groupby` call and the buffer copy of `daily_downsampler`;
  - the verbose printing and timing of `get_ev_length`;
  - method 1, the same `value_counts` map as the one-dimensional path applied per column;
  - the stack/unstack reshaping of several dimensions (one column is modelled).
- EventEnds and EventStarts carry values only: the re-labelling of the time coordinate is not modelled.
- Decimal.ParseInt: accepts an optional sign followed by digits. Whitespace and underscores, which Python's `int` also accepts, never occur in the tags and are not modelled.
- The two ways of reading year and month in `daily_downsampler` (`numpy.datetime64` or calendar objects) give the same integers and are one `Date` here.
- LengthsByFill: works on the input column as given. The write through a view described below is modelled separately by `LengthsByFillAsWritten`.

## Findings

| source | as written | input that shows it | evidently intended | confidence | as-written member | corrected member |
|---|---|---|---|---|---|---|
| xclim/utils.py:61 | The `QS-DEC` December year is re-rendered with `str` after adding 1, so it loses the four-digit zero padding that every other year has. | December of year 1 is tagged "2DJF" and January of year 2 "0002DJF", splitting one winter into two groups (December of years −100 to 998 is affected). | Pad the incremented year to four digits like the other years, so December joins the following January and February. | high; not executed | Downsampler.AsWrittenSplitsEarlyWinter (on Downsampler.SeasonTagAsWritten) | Downsampler.SeasonTagsGroupSeasons (on Downsampler.SeasonTag) |
| xclim/utils.py:107-114 | With several dimensions, the first time step is taken with an integer `isel`, which for in-memory data is a view. Setting it to 1 writes into the input before the differences are taken. | A column [0, 0, 1] is labelled as [1, 0, 1] and gets lengths [1, 1, 1] instead of [2, 2, 1]; the caller's array is also altered. | Build the leading 1s of the change mask on a copy, leaving the input untouched. | medium (assumes xarray returns a view for integer `isel` on in-memory arrays); not executed | EventLength.StartWriteSplitsFirstRun (on EventLength.LengthsByFillAsWritten) | EventLength.LengthsByFill |
