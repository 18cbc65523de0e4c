/**
 * Seven-day forecast anomaly detection of examples_py/example2.py: the
 * fixed detector with its validation chain, the original detector with its
 * shifted date label, and the argument checks of the fixed forecast fetcher.
 *
 * `np.sqrt` has no counterpart over `real`, so every operation that takes a
 * standard deviation receives the square root as a parameter `sqrt`; lemmas
 * that need it to be a true square root say so about the value at hand.
 */
module Anomaly {
  import opened Wrappers
  import Stats

  /** An element of `temperatures` as `np.array(..., dtype=float)` sees it (`None` converts to NaN). */
  datatype Reading = Finite(x: real) | NaN | Infinite(negative: bool) | Unconvertible

  /** The distinct `ValueError`s of `detect_temperature_anomalies_fixed`, in the order they are raised. */
  datatype DetectError =
    | EmptyTemperatures
    | EmptyDates
    | LengthMismatch(temperatures: nat, dates: nat)
    | InvalidData
    | NonFinite
    | InsufficientData

  /**
   * The validation chain: emptiness of each list, equal lengths, conversion
   * to floats, NaN or infinity, and at least two points. Each check is made
   * only when every earlier one passed.
   */
  function Validate(temperatures: seq<Reading>, dates: seq<string>): (r: Result<seq<real>, DetectError>)
    ensures r.Success? ==>
      2 <= |r.value| == |temperatures| == |dates| &&
      forall i :: 0 <= i < |temperatures| ==> temperatures[i] == Finite(r.value[i])
  {
    if |temperatures| == 0 then Failure(EmptyTemperatures)
    else if |dates| == 0 then Failure(EmptyDates)
    else if |temperatures| != |dates| then Failure(LengthMismatch(|temperatures|, |dates|))
    else if exists i :: 0 <= i < |temperatures| && temperatures[i].Unconvertible? then Failure(InvalidData)
    else if exists i :: 0 <= i < |temperatures| && (temperatures[i].NaN? || temperatures[i].Infinite?) then
      Failure(NonFinite)
    else if |temperatures| < 2 then Failure(InsufficientData)
    else Success(seq(|temperatures|, i requires 0 <= i < |temperatures| => temperatures[i].x))
  }

  /** Each failure is raised exactly when every earlier check passed and its own check fails. */
  lemma ValidationOrder(temperatures: seq<Reading>, dates: seq<string>)
    ensures var r := Validate(temperatures, dates);
      (r == Failure(EmptyTemperatures) <==> |temperatures| == 0) &&
      (r == Failure(EmptyDates) <==> |temperatures| > 0 && |dates| == 0) &&
      (r == Failure(LengthMismatch(|temperatures|, |dates|)) <==>
        |temperatures| > 0 && |dates| > 0 && |temperatures| != |dates|) &&
      (r == Failure(InvalidData) <==>
        0 < |temperatures| == |dates| &&
        exists i :: 0 <= i < |temperatures| && temperatures[i].Unconvertible?) &&
      (r == Failure(NonFinite) <==>
        0 < |temperatures| == |dates| &&
        (forall i :: 0 <= i < |temperatures| ==> !temperatures[i].Unconvertible?) &&
        exists i :: 0 <= i < |temperatures| && (temperatures[i].NaN? || temperatures[i].Infinite?)) &&
      (r == Failure(InsufficientData) <==> |temperatures| == |dates| == 1 && temperatures[0].Finite?) &&
      (r.Success? <==>
        2 <= |temperatures| == |dates| && forall i :: 0 <= i < |temperatures| ==> temperatures[i].Finite?)
  {
  }

  /** `np.var(temps, ddof=1)` for the sample variance, `ddof=0` for the population variance. */
  function Variance(xs: seq<real>, useSampleStd: bool): real
    requires |xs| >= 2
  {
    var ss := Stats.SumSquares(xs, Stats.Mean(xs));
    if useSampleStd then ss / ((|xs| - 1) as real) else ss / (|xs| as real)
  }

  /** One entry of `anomaly_details`. */
  datatype Detail = Detail(date: string, temperature: real, deviation: real, threshold: real)

  /** The dictionary the fixed detector returns. */
  datatype Analysis = Analysis(
    mean: real,
    std: real,
    stdType: string,
    thresholdMultiplier: real,
    threshold: real,
    anomalies: seq<string>,
    anomalyIndices: seq<nat>,
    anomalyDetails: seq<Detail>,
    totalDataPoints: nat)

  /** The three lists after the flagging loop has looked at positions `0 .. k-1`. */
  function Scan(xs: seq<real>, dates: seq<string>, mean: real, threshold: real, k: nat)
    : (r: (seq<string>, seq<nat>, seq<Detail>))
    requires k <= |xs|
  {
    if k == 0 then ([], [], [])
    else
      var (anomalies, indices, details) := Scan(xs, dates, mean, threshold, k - 1);
      var i := k - 1;
      var deviation := Abs(xs[i] - mean);
      if deviation > threshold && i < |dates| then
        (anomalies + [dates[i]], indices + [i], details + [Detail(dates[i], xs[i], deviation, threshold)])
      else (anomalies, indices, details)
  }

  /** The `std_type` label of the chosen deviation. */
  function StdType(useSampleStd: bool): string
  {
    if useSampleStd then "sample" else "population"
  }

  /** The statistics and the flagging loop, run on validated temperatures. */
  function Analyse(xs: seq<real>, dates: seq<string>, thresholdMultiplier: real,
                   useSampleStd: bool, sqrt: real -> real): Analysis
    requires |xs| >= 2
  {
    var mean := Stats.Mean(xs);
    var std := sqrt(Variance(xs, useSampleStd));
    var threshold := thresholdMultiplier * std;
    var flagged := Scan(xs, dates, mean, threshold, |xs|);
    Analysis(mean, std, StdType(useSampleStd), thresholdMultiplier,
             threshold, flagged.0, flagged.1, flagged.2, |xs|)
  }

  /** What `detect_temperature_anomalies_fixed` returns or raises. */
  function AnomalyReport(temperatures: seq<Reading>, dates: seq<string>, thresholdMultiplier: real,
                         useSampleStd: bool, sqrt: real -> real): Result<Analysis, DetectError>
  {
    match Validate(temperatures, dates)
    case Failure(e) => Failure(e)
    case Success(xs) => Success(Analyse(xs, dates, thresholdMultiplier, useSampleStd, sqrt))
  }

  method DetectAnomaliesFixed(temperatures: seq<Reading>, dates: seq<string>, thresholdMultiplier: real,
                              useSampleStd: bool, sqrt: real -> real)
    returns (r: Result<Analysis, DetectError>)
    ensures r == AnomalyReport(temperatures, dates, thresholdMultiplier, useSampleStd, sqrt)
  {
    var validated := Validate(temperatures, dates);
    if validated.Failure? {
      return Failure(validated.error);
    }
    var temps := validated.value;
    var analysis := FlagAnomalies(temps, dates, thresholdMultiplier, useSampleStd, sqrt);
    r := Success(analysis);
  }

  /** The body of the fixed detector after validation: statistics, then the appending loop. */
  method FlagAnomalies(temps: seq<real>, dates: seq<string>, thresholdMultiplier: real,
                       useSampleStd: bool, sqrt: real -> real)
    returns (analysis: Analysis)
    requires |temps| >= 2
    ensures analysis == Analyse(temps, dates, thresholdMultiplier, useSampleStd, sqrt)
  {
    var meanTemp := Stats.Mean(temps);
    var stdTemp, stdType;
    if useSampleStd {
      stdTemp := sqrt(Variance(temps, true));
      stdType := "sample";
    } else {
      stdTemp := sqrt(Variance(temps, false));
      stdType := "population";
    }
    assert stdType == StdType(useSampleStd);
    assert stdTemp == sqrt(Variance(temps, useSampleStd));
    var threshold := thresholdMultiplier * stdTemp;
    var anomalies: seq<string> := [];
    var anomalyIndices: seq<nat> := [];
    var anomalyDetails: seq<Detail> := [];
    var i := 0;
    while i < |temps|
      invariant 0 <= i <= |temps|
      invariant (anomalies, anomalyIndices, anomalyDetails) == Scan(temps, dates, meanTemp, threshold, i)
    {
      var deviation := Abs(temps[i] - meanTemp);
      if deviation > threshold {
        if i < |dates| {
          anomalies := anomalies + [dates[i]];
          anomalyIndices := anomalyIndices + [i];
          anomalyDetails := anomalyDetails + [Detail(dates[i], temps[i], deviation, threshold)];
        }
      }
      i := i + 1;
    }
    ghost var spec := Analyse(temps, dates, thresholdMultiplier, useSampleStd, sqrt);
    assert spec.threshold == threshold;
    assert (spec.anomalies, spec.anomalyIndices, spec.anomalyDetails) == (anomalies, anomalyIndices, anomalyDetails);
    analysis := Analysis(meanTemp, stdTemp, stdType, thresholdMultiplier, threshold,
                         anomalies, anomalyIndices, anomalyDetails, |temps|);
  }

  /** The three lists stay aligned, position for position, and the indices increase. */
  lemma {:induction false} ScanAligned(xs: seq<real>, dates: seq<string>, mean: real, threshold: real, k: nat)
    requires k <= |xs| <= |dates|
    ensures var (anomalies, indices, details) := Scan(xs, dates, mean, threshold, k);
      |anomalies| == |indices| == |details| &&
      (forall j :: 0 <= j < |indices| ==> indices[j] < k) &&
      (forall j :: 0 <= j < |indices| ==>
        anomalies[j] == dates[indices[j]] &&
        details[j] == Detail(dates[indices[j]], xs[indices[j]], Abs(xs[indices[j]] - mean), threshold)) &&
      forall j, l :: 0 <= j < l < |indices| ==> indices[j] < indices[l]
  {
    if k > 0 {
      ScanAligned(xs, dates, mean, threshold, k - 1);
    }
  }

  /** Exactly the positions whose deviation strictly exceeds the threshold are flagged. */
  lemma {:induction false} ScanFlagsExactly(xs: seq<real>, dates: seq<string>, mean: real, threshold: real, k: nat)
    requires k <= |xs| <= |dates|
    ensures forall i :: i in Scan(xs, dates, mean, threshold, k).1 <==> 0 <= i < k && Abs(xs[i] - mean) > threshold
  {
    if k > 0 {
      ScanFlagsExactly(xs, dates, mean, threshold, k - 1);
    }
  }

  /** A loop that meets no deviation above the threshold appends nothing. */
  lemma {:induction false} ScanQuiet(xs: seq<real>, dates: seq<string>, mean: real, threshold: real, k: nat)
    requires k <= |xs|
    requires forall i :: 0 <= i < k ==> Abs(xs[i] - mean) <= threshold
    ensures Scan(xs, dates, mean, threshold, k) == ([], [], [])
  {
    if k > 0 {
      ScanQuiet(xs, dates, mean, threshold, k - 1);
    }
  }

  /**
   * The fixed detector's statistics: the mean, the standard deviation of the
   * chosen kind with its matching label, and the point count.
   */
  lemma AnalysisStatistics(xs: seq<real>, dates: seq<string>, thresholdMultiplier: real,
                           useSampleStd: bool, sqrt: real -> real)
    requires |xs| >= 2
    ensures var a := Analyse(xs, dates, thresholdMultiplier, useSampleStd, sqrt);
      var n := |xs|;
      a.totalDataPoints == n &&
      a.mean == Stats.Sum(xs) / (n as real) &&
      a.std == sqrt(Stats.SumSquares(xs, a.mean) / ((if useSampleStd then n - 1 else n) as real)) &&
      a.stdType == (if useSampleStd then "sample" else "population")
  {
    var a := Analyse(xs, dates, thresholdMultiplier, useSampleStd, sqrt);
    var mean := Stats.Mean(xs);
    assert a.mean == mean && a.totalDataPoints == |xs|;
    if useSampleStd {
      assert a.stdType == "sample";
      assert a.std == sqrt(Stats.SumSquares(xs, mean) / ((|xs| - 1) as real));
    } else {
      assert a.stdType == "population";
      assert a.std == sqrt(Stats.SumSquares(xs, mean) / (|xs| as real));
    }
  }

  /** The threshold is the multiplier times the deviation, fixed before any position is examined. */
  lemma AnalysisThreshold(xs: seq<real>, dates: seq<string>, thresholdMultiplier: real,
                          useSampleStd: bool, sqrt: real -> real)
    requires |xs| >= 2
    ensures var a := Analyse(xs, dates, thresholdMultiplier, useSampleStd, sqrt);
      a.threshold == thresholdMultiplier * a.std && a.thresholdMultiplier == thresholdMultiplier &&
      forall j :: 0 <= j < |a.anomalyDetails| ==> a.anomalyDetails[j].threshold == a.threshold
  {
    var a := Analyse(xs, dates, thresholdMultiplier, useSampleStd, sqrt);
    ScanThreshold(xs, dates, a.mean, a.threshold, |xs|);
  }

  /** Every detail records the one threshold the loop compares against. */
  lemma {:induction false} ScanThreshold(xs: seq<real>, dates: seq<string>, mean: real, threshold: real, k: nat)
    requires k <= |xs|
    ensures forall j :: 0 <= j < |Scan(xs, dates, mean, threshold, k).2| ==>
      Scan(xs, dates, mean, threshold, k).2[j].threshold == threshold
  {
    if k > 0 {
      ScanThreshold(xs, dates, mean, threshold, k - 1);
    }
  }

  /** The returned labels, indices and details are aligned, position for position, and the indices increase. */
  lemma AnalysisAligned(xs: seq<real>, dates: seq<string>, thresholdMultiplier: real,
                        useSampleStd: bool, sqrt: real -> real)
    requires 2 <= |xs| <= |dates|
    ensures var a := Analyse(xs, dates, thresholdMultiplier, useSampleStd, sqrt);
      |a.anomalies| == |a.anomalyIndices| == |a.anomalyDetails| &&
      (forall j :: 0 <= j < |a.anomalyIndices| ==>
        a.anomalyIndices[j] < |xs| &&
        a.anomalies[j] == dates[a.anomalyIndices[j]] &&
        a.anomalyDetails[j] == Detail(dates[a.anomalyIndices[j]], xs[a.anomalyIndices[j]],
                                      Abs(xs[a.anomalyIndices[j]] - a.mean), a.threshold)) &&
      forall j, l :: 0 <= j < l < |a.anomalyIndices| ==> a.anomalyIndices[j] < a.anomalyIndices[l]
  {
    var a := Analyse(xs, dates, thresholdMultiplier, useSampleStd, sqrt);
    ScanAligned(xs, dates, a.mean, a.threshold, |xs|);
  }

  /** Index `i` is flagged exactly when `|temps[i] - mean| > threshold`: a deviation equal to the threshold is not an anomaly. */
  lemma AnalysisFlagsExactly(xs: seq<real>, dates: seq<string>, thresholdMultiplier: real,
                             useSampleStd: bool, sqrt: real -> real)
    requires 2 <= |xs| <= |dates|
    ensures var a := Analyse(xs, dates, thresholdMultiplier, useSampleStd, sqrt);
      forall i :: i in a.anomalyIndices <==> 0 <= i < |xs| && Abs(xs[i] - a.mean) > a.threshold
  {
    var a := Analyse(xs, dates, thresholdMultiplier, useSampleStd, sqrt);
    ScanFlagsExactly(xs, dates, a.mean, a.threshold, |xs|);
  }

  /**
   * With a non-negative multiplier and a true square root, the flag test
   * `|x - mean| > multiplier * std` is the variance test
   * `(x - mean)^2 > multiplier^2 * variance`.
   */
  lemma FlagViaVariance(x: real, mean: real, multiplier: real, std: real, variance: real)
    requires multiplier >= 0.0 && std >= 0.0 && std * std == variance
    ensures Abs(x - mean) > multiplier * std <==> (x - mean) * (x - mean) > multiplier * multiplier * variance
  {
    var d, t := Abs(x - mean), multiplier * std;
    assert d * d == (x - mean) * (x - mean);
    assert t * t == multiplier * multiplier * (std * std);
    assert t >= 0.0;
    if d > t {
      SquareLess(t, d);
    } else {
      SquareLess(d, t);
    }
  }

  /** Squaring is monotone on the non-negative reals. */
  lemma SquareLess(a: real, b: real)
    requires 0.0 <= a <= b
    ensures a * a <= b * b
    ensures a < b ==> a * a < b * b
  {
    if a < b {
      var sum, diff := b + a, b - a;
      MulStrict(diff, 0.0, sum);
      assert diff * sum == b * b - a * a;
    }
  }

  lemma MulStrict(c: real, x: real, y: real)
    requires c > 0.0 && x < y
    ensures c * x < c * y
  {
    assert c * y - c * x == c * (y - x);
  }

  /** For the same data the sample variance (divisor n-1) exceeds the population variance (divisor n) unless every value is the mean. */
  lemma SampleVarianceExceedsPopulation(xs: seq<real>)
    requires |xs| >= 2
    ensures Variance(xs, true) >= Variance(xs, false)
    ensures Stats.SumSquares(xs, Stats.Mean(xs)) > 0.0 ==> Variance(xs, true) > Variance(xs, false)
  {
    var ss := Stats.SumSquares(xs, Stats.Mean(xs));
    Stats.SumSquaresNonNegative(xs, Stats.Mean(xs));
    SmallerDivisor(ss, (|xs| - 1) as real);
    assert ((|xs| - 1) as real) + 1.0 == |xs| as real;
  }

  /** Dividing a non-negative amount by `a` gives at least as much as dividing it by `a + 1`. */
  lemma SmallerDivisor(ss: real, a: real)
    requires ss >= 0.0 && a > 0.0
    ensures ss / a >= ss / (a + 1.0)
    ensures ss > 0.0 ==> ss / a > ss / (a + 1.0)
  {
    var p, q := ss / a, ss / (a + 1.0);
    assert p * a == ss;
    assert q * (a + 1.0) == ss;
    assert q >= 0.0;
    assert (p - q) * a == q;
    if ss > 0.0 {
      assert q > 0.0;
    }
  }

  /** A series of identical readings has no anomaly, whatever the non-negative multiplier. */
  lemma ConstantSeriesNoAnomalies(xs: seq<real>, dates: seq<string>, thresholdMultiplier: real,
                                  useSampleStd: bool, sqrt: real -> real)
    requires 2 <= |xs| <= |dates|
    requires forall i :: 0 <= i < |xs| ==> xs[i] == xs[0]
    requires thresholdMultiplier >= 0.0 && sqrt(0.0) >= 0.0
    ensures Analyse(xs, dates, thresholdMultiplier, useSampleStd, sqrt).anomalies == []
  {
    var a := Analyse(xs, dates, thresholdMultiplier, useSampleStd, sqrt);
    Stats.SumConstant(xs, xs[0]);
    assert a.mean == xs[0];
    Stats.SumSquaresZero(xs, a.mean);
    assert a.threshold >= 0.0;
    forall i | 0 <= i < |xs| ensures Abs(xs[i] - a.mean) <= a.threshold {
      assert xs[i] - a.mean == 0.0;
    }
    ScanQuiet(xs, dates, a.mean, a.threshold, |xs|);
  }

  /**
   * A week `[0, 0, 0, 0, 0, 0, 7]` with the sample deviation and multiplier 2:
   * mean 1, sample variance 7, threshold `2 * sqrt(7)`; only the last day is
   * flagged, since `6^2 > 4 * 7` while `1^2 <= 4 * 7`.
   */
  lemma SevenDayExample(dates: seq<string>, sqrt: real -> real)
    requires |dates| == 7
    requires sqrt(7.0) >= 0.0 && sqrt(7.0) * sqrt(7.0) == 7.0
    ensures var a := Analyse(WeekWithSpike(), dates, 2.0, true, sqrt);
      a.mean == 1.0 && a.anomalies == [dates[6]] && a.anomalyIndices == [6]
  {
    var xs := WeekWithSpike();
    var p := xs[..6];
    assert xs == p + [7.0];
    assert forall i :: 0 <= i < 6 ==> p[i] == 0.0;
    Stats.SumConstant(p, 0.0);
    Stats.SumSnoc(p, 7.0);
    assert Stats.Mean(xs) == 1.0;
    Stats.SumSquaresConstant(p, 0.0, 1.0);
    Stats.SumSquaresSnoc(p, 7.0, 1.0);
    assert Variance(xs, true) == 7.0;
    var a := Analyse(xs, dates, 2.0, true, sqrt);
    forall i | 0 <= i < 6 ensures Abs(xs[i] - a.mean) <= a.threshold {
      FlagViaVariance(xs[i], a.mean, 2.0, sqrt(7.0), 7.0);
    }
    FlagViaVariance(xs[6], a.mean, 2.0, sqrt(7.0), 7.0);
    ScanQuiet(xs, dates, a.mean, a.threshold, 6);
  }

  function WeekWithSpike(): seq<real>
  {
    [0.0, 0.0, 0.0, 0.0, 0.0, 0.0, 7.0]
  }

  // ---------------------------------------------------------------------
  // The original detector (detect_temperature_anomalies)
  // ---------------------------------------------------------------------

  /** What the original detector returns; `None` stands for numpy's NaN mean of an empty array. */
  datatype BuggyAnalysis = BuggyAnalysis(
    mean: Option<real>,
    std: Option<real>,
    anomalies: seq<string>,
    anomalyIndices: seq<nat>,
    threshold: Option<real>)

  /** The `IndexError` of `dates[i + 1]`, carrying the index that was out of range. */
  datatype IndexError = IndexError(index: nat)

  /** The original loop over positions `0 .. k-1`: each flagged `i` is labelled `dates[i + 1]`. */
  function BuggyScan(xs: seq<real>, dates: seq<string>, mean: real, threshold: real, k: nat)
    : Result<(seq<string>, seq<nat>), IndexError>
    requires k <= |xs|
  {
    if k == 0 then Success(([], []))
    else
      match BuggyScan(xs, dates, mean, threshold, k - 1)
      case Failure(e) => Failure(e)
      case Success((anomalies, indices)) =>
        var i := k - 1;
        if Abs(xs[i] - mean) > threshold then
          if i + 1 < |dates| then Success((anomalies + [dates[i + 1]], indices + [i]))
          else Failure(IndexError(i + 1))
        else Success((anomalies, indices))
  }

  /** What `detect_temperature_anomalies` returns or raises: population deviation, threshold twice that. */
  function BuggyReport(temperatures: seq<real>, dates: seq<string>, sqrt: real -> real)
    : Result<BuggyAnalysis, IndexError>
  {
    if |temperatures| == 0 then Success(BuggyAnalysis(None, None, [], [], None))
    else
      var mean := Stats.Mean(temperatures);
      var std := sqrt(Stats.SumSquares(temperatures, mean) / (|temperatures| as real));
      var threshold := 2.0 * std;
      match BuggyScan(temperatures, dates, mean, threshold, |temperatures|)
      case Failure(e) => Failure(e)
      case Success((anomalies, indices)) =>
        Success(BuggyAnalysis(Some(mean), Some(std), anomalies, indices, Some(threshold)))
  }

  method DetectAnomaliesBuggy(temperatures: seq<real>, dates: seq<string>, sqrt: real -> real)
    returns (r: Result<BuggyAnalysis, IndexError>)
    ensures r == BuggyReport(temperatures, dates, sqrt)
  {
    var temps := temperatures;
    if |temps| == 0 {
      return Success(BuggyAnalysis(None, None, [], [], None));
    }
    var meanTemp := Stats.Mean(temps);
    var stdTemp := sqrt(Stats.SumSquares(temps, meanTemp) / (|temps| as real));
    var threshold := 2.0 * stdTemp;
    var anomalies: seq<string> := [];
    var anomalyIndices: seq<nat> := [];
    var i := 0;
    while i < |temps|
      invariant 0 <= i <= |temps|
      invariant BuggyScan(temps, dates, meanTemp, threshold, i) == Success((anomalies, anomalyIndices))
    {
      var deviation := Abs(temps[i] - meanTemp);
      if deviation > threshold {
        if i + 1 >= |dates| {
          BuggyScanFailureSticks(temps, dates, meanTemp, threshold, i + 1, |temps|);
          return Failure(IndexError(i + 1));
        }
        anomalies := anomalies + [dates[i + 1]];
        anomalyIndices := anomalyIndices + [i];
      }
      i := i + 1;
    }
    r := Success(BuggyAnalysis(Some(meanTemp), Some(stdTemp), anomalies, anomalyIndices, Some(threshold)));
  }

  /** Once the loop has raised, the later positions do not matter. */
  lemma {:induction false} BuggyScanFailureSticks(xs: seq<real>, dates: seq<string>, mean: real, threshold: real,
                                                  k: nat, l: nat)
    requires k <= l <= |xs| && BuggyScan(xs, dates, mean, threshold, k).Failure?
    ensures BuggyScan(xs, dates, mean, threshold, l) == BuggyScan(xs, dates, mean, threshold, k)
    decreases l - k
  {
    if k < l {
      BuggyScanFailureSticks(xs, dates, mean, threshold, k, l - 1);
    }
  }

  /** The original loop raises exactly when some flagged `i` has no `dates[i + 1]`. */
  lemma {:induction false} BuggyScanFails(xs: seq<real>, dates: seq<string>, mean: real, threshold: real, k: nat)
    requires k <= |xs|
    ensures BuggyScan(xs, dates, mean, threshold, k).Failure? <==>
      exists i :: 0 <= i < k && Abs(xs[i] - mean) > threshold && i + 1 >= |dates|
  {
    if k > 0 {
      BuggyScanFails(xs, dates, mean, threshold, k - 1);
    }
  }

  /** When the original loop completes, each label is the date one position after its index. */
  lemma {:induction false} BuggyScanShifted(xs: seq<real>, dates: seq<string>, mean: real, threshold: real, k: nat)
    requires k <= |xs| && BuggyScan(xs, dates, mean, threshold, k).Success?
    ensures var (anomalies, indices) := BuggyScan(xs, dates, mean, threshold, k).value;
      |anomalies| == |indices| &&
      (forall j :: 0 <= j < |indices| ==> indices[j] + 1 < |dates| && anomalies[j] == dates[indices[j] + 1]) &&
      forall i :: i in indices <==> 0 <= i < k && Abs(xs[i] - mean) > threshold
  {
    if k > 0 {
      BuggyScanShifted(xs, dates, mean, threshold, k - 1);
    }
  }

  /**
   * With one date per temperature, the original detector raises exactly when
   * the last day is flagged, and otherwise labels every anomaly with the
   * following day's date.
   */
  lemma BuggyReportMisaligned(temperatures: seq<real>, dates: seq<string>, sqrt: real -> real)
    requires 0 < |temperatures| == |dates|
    ensures var n, mean := |temperatures|, Stats.Mean(temperatures);
      var threshold := 2.0 * sqrt(Stats.SumSquares(temperatures, mean) / (n as real));
      var r := BuggyReport(temperatures, dates, sqrt);
      (r.Failure? <==> Abs(temperatures[n - 1] - mean) > threshold) &&
      (r.Failure? ==> r.error == IndexError(n)) &&
      (r.Success? ==>
        |r.value.anomalies| == |r.value.anomalyIndices| &&
        forall j :: 0 <= j < |r.value.anomalyIndices| ==>
          r.value.anomalyIndices[j] + 1 < n && r.value.anomalies[j] == dates[r.value.anomalyIndices[j] + 1])
  {
    var n, mean := |temperatures|, Stats.Mean(temperatures);
    var threshold := 2.0 * sqrt(Stats.SumSquares(temperatures, mean) / (n as real));
    BuggyScanFails(temperatures, dates, mean, threshold, n);
    if BuggyScan(temperatures, dates, mean, threshold, n).Success? {
      BuggyScanShifted(temperatures, dates, mean, threshold, n);
    } else {
      BuggyScanFailureIndex(temperatures, dates, mean, threshold, n);
    }
  }

  /** With as many dates as temperatures, the only index the original loop can fail on is `n`. */
  lemma {:induction false} BuggyScanFailureIndex(xs: seq<real>, dates: seq<string>, mean: real, threshold: real, k: nat)
    requires k <= |xs| == |dates| && BuggyScan(xs, dates, mean, threshold, k).Failure?
    ensures BuggyScan(xs, dates, mean, threshold, k).error == IndexError(|xs|)
  {
    if BuggyScan(xs, dates, mean, threshold, k - 1).Failure? {
      BuggyScanFailureIndex(xs, dates, mean, threshold, k - 1);
    }
  }

  /** On the spiked week, the original detector flags the last day too and so raises `IndexError` at 7. */
  lemma SevenDayExampleBuggy(dates: seq<string>, sqrt: real -> real)
    requires |dates| == 7
    requires sqrt(6.0) >= 0.0 && sqrt(6.0) * sqrt(6.0) == 6.0
    ensures BuggyReport(WeekWithSpike(), dates, sqrt) == Failure(IndexError(7))
  {
    var xs := WeekWithSpike();
    var p := xs[..6];
    assert xs == p + [7.0];
    assert forall i :: 0 <= i < 6 ==> p[i] == 0.0;
    Stats.SumConstant(p, 0.0);
    Stats.SumSnoc(p, 7.0);
    Stats.SumSquaresConstant(p, 0.0, 1.0);
    Stats.SumSquaresSnoc(p, 7.0, 1.0);
    assert Stats.SumSquares(xs, Stats.Mean(xs)) / 7.0 == 6.0;
    FlagViaVariance(xs[6], 1.0, 2.0, sqrt(6.0), 6.0);
    BuggyReportMisaligned(xs, dates, sqrt);
  }

  // ---------------------------------------------------------------------
  // Argument checks of fetch_weather_forecast_fixed
  // ---------------------------------------------------------------------

  /** The outcome of the range checks made before any request is sent. */
  datatype ForecastArgs = ArgsOk | InvalidLatitude(latitude: real) | InvalidLongitude(longitude: real) | InvalidDays(days: int)

  function CheckForecastArgs(latitude: real, longitude: real, days: int): (r: ForecastArgs)
    ensures r == ArgsOk <==> -90.0 <= latitude <= 90.0 && -180.0 <= longitude <= 180.0 && 1 <= days <= 16
    ensures r.InvalidLatitude? <==> !(-90.0 <= latitude <= 90.0)
    ensures r.InvalidLongitude? <==> -90.0 <= latitude <= 90.0 && !(-180.0 <= longitude <= 180.0)
    ensures r.InvalidDays? <==>
      -90.0 <= latitude <= 90.0 && -180.0 <= longitude <= 180.0 && !(1 <= days <= 16)
  {
    if !(-90.0 <= latitude <= 90.0) then InvalidLatitude(latitude)
    else if !(-180.0 <= longitude <= 180.0) then InvalidLongitude(longitude)
    else if !(1 <= days <= 16) then InvalidDays(days)
    else ArgsOk
  }

  /** The Berlin defaults pass; a seventeen-day request and a latitude of 91 do not. */
  lemma ForecastArgsExamples()
    ensures CheckForecastArgs(52.52, 13.41, 7) == ArgsOk
    ensures CheckForecastArgs(52.52, 13.41, 17) == InvalidDays(17)
    ensures CheckForecastArgs(91.0, 200.0, 0) == InvalidLatitude(91.0)
  {
  }
}
