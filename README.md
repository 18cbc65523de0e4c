# Weather-data algorithms of MLDS-Sprint-9-intro, modelled in Dafny

The repository is a teaching set of "buggy" and "fixed" weather scripts. Most
of it is I/O glue around a few small algorithms. This project models those
algorithms over `real`. `Option<real>` (or the JSON-like `Value`) stands in for
`None` and NaN. The project then proves what the code promises about them,
including where the deliberately buggy versions misbehave.

Modules, one per concern:

- `Wrappers`: `Option`, `Result`, the JSON scalar `Value`, `Abs`.
- `Stats`: sum, mean and sum of squared deviations, with their bounds.
- `Imputation` covers `examples_py/example4.py`:
  - linear interpolation, with its mask taken once and its two boundary scans, as array methods;
  - the moving average, which writes into the array it reads, as an array method;
  - the per-field driver, which writes imputed columns back into the records and reports missing counts.
- `Anomaly` covers `examples_py/example2.py`:
  - the fixed detector: its ordered validation chain, mean, sample or population deviation, threshold, and the appending loop;
  - the original detector, whose `dates[i + 1]` label is shifted or out of range;
  - the forecast argument checks.
- `Dates`: the `normalize_date` copies. The copies in `examples_py/example3.py` and `normalize_newyork.py` have the day/month-swapping slash branch. The copies in `normalize_tokyo.py` and `examples_py/normalize_london.py` do not.
- `Cities`: the Tokyo, New York and London normalisers and `combine_normalized_data`, as append loops proved equal to their specifications.
- `Peaks`: `find_peak_hours_buggy` in `examples_py/example5.py`, with nested loops, its running maximum and the `TypeError` of `None > float`.
- `Units`: the string clean-up, the °F→°C formula with its 5/8 factor, the Fahrenheit test, and the max/min assignment loop of `examples_py/example6.py`.

Each statement loop of the source is a `method` with a loop. Its `ensures`
ties the result to a recursive or comprehension function, and the lemmas state
the properties of that function. There are two exceptions in
`examples_py/example4.py`. The loop `for field in fields` that builds
`field_arrays` (lines 136-137) is a map comprehension inside
`Imputation.ImputeWeatherData`. The counting generator of line 152, which sums
1 for each `None` of `original_values`, is the recursive
`Imputation.CountMissing`. `np.sqrt` and `float()` have no
counterpart over `real`, so they are function parameters (`sqrt`, `parse`).
The lemmas that use the square root state their hypothesis about `sqrt` at the
value they need:
- `Anomaly.ConstantSeriesNoAnomalies` requires only `sqrt(0.0) >= 0.0`;
- `Anomaly.SevenDayExample` requires `sqrt(7.0) >= 0.0` and `sqrt(7.0) * sqrt(7.0) == 7.0`;
- `Anomaly.SevenDayExampleBuggy` requires `sqrt(6.0) >= 0.0` and `sqrt(6.0) * sqrt(6.0) == 6.0`.

## Model

| member | source | states |
|---|---|---|
| Stats.MeanBounds | examples_py/example4.py:117 | a mean of values that all lie in `[lo, hi]` lies in `[lo, hi]` |
| Stats.SumSquaresNonNegative | examples_py/example2.py:243-246 | the sum of squared deviations behind either variance is never negative |
| Imputation.CountMissingZero | examples_py/example4.py:46-47 | no missing value is counted exactly when every position is present |
| Imputation.CountMissingAll | examples_py/example4.py:152 | every position is counted exactly when every position is missing |
| Imputation.TwoPresent | examples_py/example4.py:53-55 | two present positions leave at most `n - 2` missing, so the interpolation goes ahead |
| Imputation.LastPresentBefore | examples_py/example4.py:65-69 | the result is the nearest originally-present index left of `i`, or none when everything left of `i` is missing |
| Imputation.FirstPresentFrom | examples_py/example4.py:71-75 | the result is the nearest originally-present index from `j` on, or none when everything from `j` on is missing |
| Imputation.Interpolated | examples_py/example4.py:29-88 | the result has the input's length and keeps every present value |
| Imputation.LinearInterpolation | examples_py/example4.py:29-88 | the array loop, with its early returns, returns exactly the interpolated sequence; the mask is taken once from `values` before any write, so every gap is filled from the ORIGINAL neighbours, never from a value filled earlier |
| Imputation.FillGap | examples_py/example4.py:60-86 | given a mask that marks the missing positions of the original `values` (not of the partly filled `arr`), one masked position gets the value from its original neighbours, and no other position changes |
| Imputation.ScanLeft | examples_py/example4.py:65-69 | the backward scan over the mask finds the nearest present index on the left |
| Imputation.ScanRight | examples_py/example4.py:71-75 | the forward scan over the mask finds the nearest present index on the right |
| Imputation.InterpolationFillsAll | examples_py/example4.py:55-86 | with two or more present values every position of the result is present |
| Imputation.InterpolationUnchanged | examples_py/example4.py:34-57 | a complete input, or one with fewer than two present values, comes back unchanged |
| Imputation.InterpolationIdempotent | examples_py/example4.py:29-88 | interpolating the result again changes nothing |
| Imputation.LerpBetween | examples_py/example4.py:80-82 | the linear value at `x1 <= i <= x2` lies between `y1` and `y2` |
| Imputation.InterpolationInterior | examples_py/example4.py:62-82 | an interior gap takes the linear value between its nearest ORIGINAL neighbours, and lies between them |
| Imputation.InterpolationLeadingGap | examples_py/example4.py:85-86 | a gap before the first present value takes that value |
| Imputation.InterpolationTrailingGap | examples_py/example4.py:83-84 | a gap after the last present value takes that value |
| Imputation.ExampleGapFills | examples_py/example4.py:78-86 | in `[NA, 2, NA, 4, NA]` the gaps fill with 2, 3 and 4 |
| Imputation.InterpolationExample | examples_py/example4.py:59-88 | `[NA, 2, NA, 4, NA]` becomes `[2, 2, 3, 4, 4]` |
| Imputation.SliceBound | examples_py/example4.py:113 | a slice bound resolves into `[0, n]` and an in-range bound is kept |
| Imputation.PySlice | examples_py/example4.py:113 | a slice is never longer than the sliced array |
| Imputation.PySliceMembers | examples_py/example4.py:113 | the window holds only entries of the current array |
| Imputation.Present | examples_py/example4.py:114 | the valid values are never more than the window |
| Imputation.PresentMembers | examples_py/example4.py:114 | `v` is a valid value exactly when `Some(v)` is in the window |
| Imputation.AverageStep | examples_py/example4.py:108-117 | one iteration keeps the array's length |
| Imputation.AveragePass | examples_py/example4.py:107-118 | the pass keeps the array's length |
| Imputation.MovingAverage | examples_py/example4.py:90-120 | the moving average keeps the input's length |
| Imputation.MovingAverageImputation | examples_py/example4.py:90-120 | the in-place loop returns exactly the left-to-right pass; the mask is that of the original `values`, taken once before any write, while each window reads the array with the earlier writes in it |
| Imputation.AveragePassKeepsPresent | examples_py/example4.py:108 | the pass writes only positions of the mask |
| Imputation.MovingAverageKeepsPresent | examples_py/example4.py:107-108 | the moving average never changes an originally-present value |
| Imputation.MovingAverageAllMissing | examples_py/example4.py:116-118 | a series in which every value is missing stays so: a window without a valid value writes nothing |
| Imputation.AverageStepInRange | examples_py/example4.py:113-117 | a step keeps every present value within an interval that held them before |
| Imputation.AveragePassInRange | examples_py/example4.py:107-117 | so does the whole pass |
| Imputation.MovingAverageInRange | examples_py/example4.py:107-117 | filled values never leave the range of the observed values |
| Imputation.MovingAverageExample | examples_py/example4.py:107-117 | `[1, NA, 3, NA, 5]` with window 3 becomes `[1, 2, 3, 4, 5]` |
| Imputation.MovingAverageReadsFilledValues | examples_py/example4.py:113-117 | `[1, NA, NA, NA]` is filled completely, although the window of position 2 holds no original value: filled values feed later windows |
| Imputation.ImputeField | examples_py/example4.py:143-148 | the routed imputation keeps the column's length |
| Imputation.FilledCount | examples_py/example4.py:150-152 | the number of positions that were missing and are now present is at most the column's length |
| Imputation.SetField | examples_py/example4.py:158 | the assignment sets the field and leaves every other key as it was |
| Imputation.StoreColumn | examples_py/example4.py:156-158 | record `i` gets position `i` of the column while the column reaches it; the rest is unchanged |
| Imputation.ImputeOneField | examples_py/example4.py:140-158 | the count is the column's missing count, and every record gets its imputed value |
| Imputation.FieldsCovered | examples_py/example4.py:133 | walking the four field names reaches every field |
| Imputation.ProgressStep | examples_py/example4.py:140-158 | one field's pass extends the stored columns and the counts by that field |
| Imputation.ProgressDone | examples_py/example4.py:140-160 | after the four passes the records and counts are the driver's result |
| Imputation.ImputeWeatherData | examples_py/example4.py:122-160 | the driver's result: one record per input record, each holding every field's imputed column at its position, every other key untouched, and per field the count of originally-`None` positions |
| Imputation.FilledCountComplete | examples_py/example4.py:150-152 | when every position ends up present, the filled count is the missing count |
| Imputation.ReportedCountExactForInterpolation | examples_py/example4.py:143-152 | for a temperature field with two or more present values the reported count equals the number filled |
| Imputation.ReportedCountOverstatesFilled | examples_py/example4.py:147-152 | a humidity column of three `None`s is reported as 3 although none is filled |
| Anomaly.Validate | examples_py/example2.py:217-237 | on success the temperatures are at least two finite readings, as many as the dates |
| Anomaly.ValidationOrder | examples_py/example2.py:217-237 | each distinct error is raised exactly when every earlier check passed and its own check fails |
| Anomaly.Analyse | examples_py/example2.py:241-281 | definition of the statistics and the flagging loop on validated readings; its properties are the `Anomaly.Analysis*` rows below |
| Anomaly.DetectAnomaliesFixed | examples_py/example2.py:212-281 | the detector returns exactly the validated analysis, or the first validation error |
| Anomaly.FlagAnomalies | examples_py/example2.py:241-269 | the statistics and the appending loop produce exactly the specified analysis |
| Anomaly.ScanAligned | examples_py/example2.py:257-269 | the three lists stay of equal length; each label is `dates` at its index; the indices strictly increase; each detail records date, temperature and deviation |
| Anomaly.ScanFlagsExactly | examples_py/example2.py:257-263 | an index is listed exactly when its deviation strictly exceeds the threshold |
| Anomaly.ScanQuiet | examples_py/example2.py:257-259 | without a deviation above the threshold nothing is appended |
| Anomaly.AnalysisStatistics | examples_py/example2.py:241-247 | `total_data_points` is `n`, the mean is `sum / n`, the deviation uses divisor `n - 1` or `n` as chosen, and `std_type` names the choice |
| Anomaly.AnalysisThreshold | examples_py/example2.py:250 | the threshold is the multiplier times the deviation, and every detail carries that one threshold |
| Anomaly.ScanThreshold | examples_py/example2.py:268 | every detail records the threshold the loop compares against |
| Anomaly.AnalysisAligned | examples_py/example2.py:253-280 | the returned labels, indices and details are aligned and the indices increase |
| Anomaly.AnalysisFlagsExactly | examples_py/example2.py:257-263 | an index is an anomaly exactly when its deviation is strictly above the threshold |
| Anomaly.FlagViaVariance | examples_py/example2.py:243-259 | the comparison against `m * std` is the comparison of squared deviation against `m^2` times the variance |
| Anomaly.SampleVarianceExceedsPopulation | examples_py/example2.py:242-247 | the sample variance is at least the population variance, strictly unless every value is the mean |
| Anomaly.ConstantSeriesNoAnomalies | examples_py/example2.py:241-263 | identical readings give no anomaly for any non-negative multiplier |
| Anomaly.SevenDayExample | examples_py/example2.py:212-281 | a week of zeros with a spike of 7 on the last day: mean 1, and exactly the last day is flagged |
| Anomaly.BuggyReport | examples_py/example2.py:34-70 | definition of what the original detector returns or raises; its properties are the `Anomaly.Buggy*` rows below |
| Anomaly.DetectAnomaliesBuggy | examples_py/example2.py:34-70 | on real-valued readings the original loop returns exactly the specified shifted labels, or raises `IndexError` |
| Anomaly.BuggyScanFailureSticks | examples_py/example2.py:57-62 | once the loop has raised, later positions do not matter |
| Anomaly.BuggyScanFails | examples_py/example2.py:57-62 | the loop raises exactly when some flagged `i` has no `dates[i + 1]` |
| Anomaly.BuggyScanShifted | examples_py/example2.py:61-62 | when the loop completes, each label is the date one position after its index |
| Anomaly.BuggyReportMisaligned | examples_py/example2.py:34-70 | with as many dates as temperatures, the call fails exactly when the last point is flagged, with `IndexError(n)`; otherwise every label is `dates[index + 1]` |
| Anomaly.BuggyScanFailureIndex | examples_py/example2.py:61 | with as many dates as temperatures the only failing index is `n` |
| Anomaly.SevenDayExampleBuggy | examples_py/example2.py:34-70 | on the spiked week the original detector raises `IndexError` at 7 |
| Anomaly.CheckForecastArgs | examples_py/example2.py:176-181 | the arguments pass exactly when all three ranges hold; otherwise the first failing check, in order latitude, longitude, days, is reported |
| Anomaly.ForecastArgsExamples | examples_py/example2.py:176-181 | Berlin for 7 days passes; 17 days, or a latitude of 91, is refused |
| Dates.NormalizeDate | normalize_newyork.py:4-18 | definition of every `normalize_date` copy, the slash branch switched by `rules` (the copies at examples_py/example3.py:102-124, normalize_tokyo.py:4-11 and examples_py/normalize_london.py:4-11 are the same function); its properties are the `Dates.*` rows below |
| Dates.BeforeFirst | examples_py/example3.py:120-121 | the result is the prefix before the first `T`, holds no `T`, and is the whole string when there is none |
| Dates.IsoUnchanged | examples_py/example3.py:110-111 | an exact `dddd-dd-dd` string is returned unchanged by both variants |
| Dates.SlashReordered | examples_py/example3.py:114-117 | `a/b/c` becomes the ISO-shaped `c-a-b`: day and month swapped |
| Dates.OtherUnchanged | examples_py/example3.py:123-124 | non-strings and strings of none of the three forms are returned unchanged |
| Dates.TimestampCut | normalize_tokyo.py:9-10 | a string of neither shape holding `T` becomes its prefix before the first `T` |
| Dates.SlashDateKeptWithoutBranch | normalize_tokyo.py:6-11 | without the slash branch a `dd/dd/dddd` string is returned unchanged |
| Dates.TokyoSlashExample | normalize_tokyo.py:4-11 | the Tokyo copy returns `18/08/2024` as it is |
| Dates.DateThenTime | normalize_newyork.py:16-17 | a date of either shape followed by `T` and a time is cut back to that date |
| Dates.NewYorkSlashExample | normalize_newyork.py:11-14 | the New York copy turns `18/08/2024` into `2024-18-08` |
| Dates.SlashNotIdempotent | normalize_newyork.py:4-18 | with the slash branch normalising twice differs from once: `18/08/2024T00:00` → `18/08/2024` → `2024-18-08` |
| Dates.NoSlashIdempotent | examples_py/normalize_london.py:4-11 | without the slash branch normalising twice is normalising once |
| Dates.LondonTimestampExample | examples_py/normalize_london.py:9-10 | `2024-08-18T00:00:00Z` becomes `2024-08-18` |
| Cities.TokyoRecords | normalize_tokyo.py:13-40 | definition of what `normalize_tokyo_data` returns; its properties are `Cities.TokyoOnePerDate` and `Cities.TokyoShortArrays` |
| Cities.NormalizeTokyoData | normalize_tokyo.py:13-40 | the index loop returns exactly one specified record per date |
| Cities.TokyoOnePerDate | normalize_tokyo.py:29-32 | exactly `len(dates)` records, in date order, each with city `Tokyo` and the normalised date |
| Cities.TokyoShortArrays | normalize_tokyo.py:33-37 | each field is the array's `i`-th entry, or past its end `0.0` for precipitation and `None` otherwise |
| Cities.TokyoSampleFirstRow | examples_py/example3.py:141-150 | the Tokyo sample's first day normalises to its seven expected columns |
| Cities.NewYorkRecords | normalize_newyork.py:20-40 | definition of what `normalize_newyork_data` returns; its property is `Cities.NewYorkPerItem` |
| Cities.NormalizeNewYorkData | normalize_newyork.py:20-40 | the item loop returns exactly one specified record per item |
| Cities.NewYorkPerItem | normalize_newyork.py:26-38 | one record per item in order; city from `location` or `New York`; precipitation defaults to `0.0`, other absent keys to `None` |
| Cities.NewYorkSampleDate | examples_py/example3.py:162-165 | the New York sample date `18/08/2024` comes out as `2024-18-08` |
| Cities.LondonRecords | examples_py/normalize_london.py:13-34 | definition of what `normalize_london_data` returns or raises; its properties are `Cities.LondonAllOrNothing` and `Cities.LondonPerItem` |
| Cities.NormalizeLondonData | examples_py/normalize_london.py:13-34 | the item loop returns exactly the specified records, or stops with the `KeyError` |
| Cities.LondonAllOrNothing | examples_py/normalize_london.py:29 | one item without `rainfall`, wherever it sits, fails the whole call and returns no partial list |
| Cities.LondonPerItem | examples_py/normalize_london.py:19-32 | with every rainfall present, one record per item in order, city from `city_name` or `London`, and the renamed keys or `None` |
| Cities.CombineNormalizedData | examples_py/example3.py:197-206 | the extend loop returns the lists joined in the order given |
| Cities.CombineLength | examples_py/example3.py:201-203 | the combined length is the sum of the input lengths |
| Cities.CombinePlacement | examples_py/example3.py:197-206 | entry `p` of list `j` lands right after all entries of the earlier lists: the order is kept and nothing is sorted |
| Peaks.Fold | examples_py/example5.py:146-156 | definition of the running maximum after each hour; its properties are `Peaks.FoldHoldsNumber`, `Peaks.FoldFails` and `Peaks.FoldMaximum` |
| Peaks.DayPeak | examples_py/example5.py:133-162 | definition of one day's entry; its properties are `Peaks.EmptyDayDefault` and `Peaks.DayPeakIsFirstMaximum` |
| Peaks.PeakHours | examples_py/example5.py:125-164 | definition of what `find_peak_hours_buggy` returns or raises; its properties are `Peaks.PeaksOnePerDay` and `Peaks.PeakHoursDayFails` |
| Peaks.FindPeakHours | examples_py/example5.py:125-164 | the nested loops return exactly the specified peaks, or the comparison's `TypeError` |
| Peaks.BlockedDay | examples_py/example5.py:153-154 | a failing comparison on any day fails the whole call |
| Peaks.ShortFoldFails | examples_py/example5.py:149-156 | once the running maximum has failed, later hours do not matter |
| Peaks.PeakHoursDayFails | examples_py/example5.py:132-164 | a day whose peak fails makes the whole call fail |
| Peaks.PeaksOnePerDay | examples_py/example5.py:132-162 | on success one entry per day, in order, with that day's date |
| Peaks.EmptyDayDefault | examples_py/example5.py:136-143 | a day without hours gets `12:00` and `0.0` |
| Peaks.FoldHoldsNumber | examples_py/example5.py:146-156 | the running maximum holds a number exactly when some hour so far had a reading |
| Peaks.FoldFails | examples_py/example5.py:153-154 | the comparison fails exactly when a missing reading follows a numeric one |
| Peaks.FoldMaximum | examples_py/example5.py:149-156 | with every reading present, the peak is the day's maximum at the earliest hour reaching it |
| Peaks.DayPeakIsFirstMaximum | examples_py/example5.py:145-162 | a fully recorded day reports its maximum and the time of its first occurrence |
| Peaks.TieKeepsEarliest | examples_py/example5.py:154 | two hours at 30.0: the earlier one is the peak |
| Units.StripLeading | examples_py/example6.py:31 | leading whitespace removed: a suffix that starts with no whitespace, after only whitespace |
| Units.StripTrailing | examples_py/example6.py:31 | trailing whitespace removed: a prefix that ends with no whitespace, before only whitespace |
| Units.StripMiddle | examples_py/example6.py:31 | the strip keeps a contiguous middle and removes only whitespace around it |
| Units.StripIdempotent | examples_py/example6.py:31 | stripping twice is stripping once |
| Units.CommasToDots | examples_py/example6.py:34 | every comma becomes a dot and every other character is kept |
| Units.CleanedNoComma | examples_py/example6.py:31-34 | the text handed to `float` has no comma, a dot wherever the stripped text had a comma |
| Units.NormalizeNumber | examples_py/example6.py:27-39 | definition of `normalize_number_buggy`; its properties are `Units.NormalizeNumberCases` and `Units.CleanedNoComma` |
| Units.NormalizeNumberCases | examples_py/example6.py:27-39 | empty text gives `None`; otherwise `float` sees the stripped, comma-free text |
| Units.DecimalCommaExample | examples_py/example6.py:27-39 | `" 32,9 "` reaches `float` as `"32.9"` |
| Units.FahrenheitToCelsius | examples_py/example6.py:46-50 | the result is `None` exactly when the input is |
| Units.FreezingPoint | examples_py/example6.py:50 | 32 °F maps to 0 |
| Units.ConversionIncreasing | examples_py/example6.py:50 | the conversion is strictly increasing |
| Units.ConversionWrongOffFreezing | examples_py/example6.py:49-50 | the 5/8 factor agrees with the true 5/9 conversion only at 32 °F |
| Units.Upper | examples_py/example6.py:61 | lower-case ASCII letters become upper case, everything else is kept |
| Units.DetectFahrenheit | examples_py/example6.py:52-68 | definition of `detect_fahrenheit_buggy`; its properties are `Units.DetectFahrenheitIff` and `Units.HotCelsiusMisread` |
| Units.DetectFahrenheitIff | examples_py/example6.py:52-68 | the text counts as Fahrenheit exactly when it is non-empty, its value parsed, and it holds `F` or `f` or the value exceeds 50 |
| Units.HotCelsiusMisread | examples_py/example6.py:64-66 | `51` with no unit letter counts as Fahrenheit; `32.9C` does not |
| Units.MatchValue | examples_py/example6.py:121-124 | definition of the value one match contributes: parsed, then converted when taken for Fahrenheit |
| Units.Assign | examples_py/example6.py:126-130 | definition of the max/min assignment over the values in order; its properties are `Units.AssignAllParsed` and `Units.AssignSkipsLeadingNone` |
| Units.MatchValues | examples_py/example6.py:119-124 | one value per match |
| Units.ExtractTemperatures | examples_py/example6.py:116-130 | the match loop computes exactly the specified max/min pair |
| Units.AssignAllParsed | examples_py/example6.py:126-130 | with every value parsed, max is the first value, and min is the last of two or more, else `None` |
| Units.AssignSkipsLeadingNone | examples_py/example6.py:126-128 | a leading unparsed value leaves no trace: the next value becomes the maximum |

## Left out

- External effects are not modelled:
  - HTTP requests, file reading and writing, JSON (de)serialisation, printing, `main_*` functions and module-level demo code;
  - in `examples_py/example2.py`, the request and response handling of `fetch_weather_forecast_fixed` after its range checks.
- The Streamlit app (`app.py`), the HTML scraper (`examples_py/example1.py`) and the orchestration in `examples_py/normalize_all.py` are not part of this model. Neither is the London fallback of `main_*`, nor the XML parser `parse_xml_buggy` of `examples_py/example5.py`.
- Floating point is not modelled. Everything is `real`: there is no IEEE rounding, no NaN propagation and no `round(..., 2)`. In `Imputation`, `Peaks` and `Units` a missing value is the `None` of `Option`, which stands for both `None` and NaN. `float(temp)` in the details is the identity.
- Anomaly.Analyse: the square root is the parameter `sqrt`. Every statement about the deviation holds for whatever `sqrt` returns. Anomaly.ConstantSeriesNoAnomalies requires only `sqrt(0.0) >= 0.0`. Anomaly.SevenDayExample requires `sqrt(7.0)` to be the non-negative root of 7. Anomaly.SevenDayExampleBuggy requires `sqrt(6.0)` to be the non-negative root of 6.
- Anomaly.DetectAnomaliesBuggy: readings are finite reals, so the detector's unchecked input (its BUG 1, `examples_py/example2.py:39-43`) is not modelled for invalid readings. A `None` in the list makes `np.array` an object array, and `np.mean` then raises `TypeError`. A NaN reading makes the mean, deviation and threshold NaN, so `deviation > threshold` never holds and nothing is flagged. Neither outcome is modelled.
- Anomaly.Validate: `np.array(temperatures, dtype=float)` is not modelled as a conversion. Each element arrives already classified as finite, NaN, infinite or unconvertible.
- Units.NormalizeNumber: `float()` is the parameter `parse`, whose `None` stands for the `ValueError`. Python's float grammar is not modelled.
- Units.ExtractTemperatures: the regular-expression search that produces the matches is not modelled. The first pattern's matches arrive as a sequence of number and unit texts.
- Units.IsSpace: `str.strip` whitespace is modelled on ASCII and the separators `\x1c`-`\x1f` only. Units.Upper upper-cases only ASCII letters.
- Dates.IsoShape: `\d` is read as an ASCII digit. The pattern ending in `$` is read as the end of the string. `re.match` would also accept one trailing newline there; that case is not modelled.
- Cities.NormalizeTokyoData: the `data.get('daily', {})` step is not modelled. The `daily` object is the parameter, and an absent array key reads as `[]`.
- Peaks.FindPeakHours: `day_data['date']` and `day_data['hourly']` are taken to exist. The `KeyError` their absence would raise is not modelled. A missing `time` or `temperature` key reads as `None`, as `.get` does.
- Imputation.LinearInterpolation: the early `return values` hands back the caller's list, while the other paths return a fresh `arr.tolist()`. The model returns equal sequences in both cases, because object identity and the float coercion of `np.array(..., dtype=float)` are not modelled.
- Imputation.ImputeWeatherData: the model takes the `weather_data` records directly. The rest of the top-level object, and the deep copy that protects it, are not modelled. A field key absent from a record reads as `None`, as `record.get` does, and the write-back then adds the key.
