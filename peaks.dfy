/**
 * `find_peak_hours_buggy`: for each day, the hour with the highest
 * temperature, found by a running maximum with a strict comparison.
 */
module Peaks {
  import opened Wrappers

  /** One hourly entry; `temperature` is `None` when the reading was missing. */
  datatype Hour = Hour(time: Option<string>, temperature: Option<real>)

  datatype Day = Day(date: string, hourly: seq<Hour>)

  /** One row of the output: the day's date, its peak hour and peak temperature. */
  datatype Peak = Peak(date: string, peakHour: Option<string>, peakTemp: Option<real>)

  /** Comparing a missing reading against a number (`None > float`). */
  datatype TypeError = TypeError

  /** The loop's two running variables, `max_temp` and `peak_hour`. */
  datatype Running = Running(maxTemp: Option<real>, peakHour: Option<string>)

  /** One iteration: take the hour while nothing is held, or when it is strictly warmer. */
  function Step(st: Running, h: Hour): Result<Running, TypeError>
  {
    match st.maxTemp
    case None => Success(Running(h.temperature, h.time))
    case Some(m) =>
      match h.temperature
      case None => Failure(TypeError)
      case Some(t) => if t > m then Success(Running(Some(t), h.time)) else Success(st)
  }

  /** The running variables after the first `|hours|` hours. */
  function Fold(hours: seq<Hour>): Result<Running, TypeError>
  {
    if hours == [] then Success(Running(None, None))
    else
      match Fold(hours[..|hours| - 1])
      case Failure(e) => Failure(e)
      case Success(st) => Step(st, hours[|hours| - 1])
  }

  /** The entry for one day; a day without hours gets `'12:00'` and `0.0`. */
  function DayPeak(day: Day): Result<Peak, TypeError>
  {
    if day.hourly == [] then Success(Peak(day.date, Some("12:00"), Some(0.0)))
    else
      match Fold(day.hourly)
      case Failure(e) => Failure(e)
      case Success(st) => Success(Peak(day.date, st.peakHour, st.maxTemp))
  }

  /** What `find_peak_hours_buggy` returns, or the error it raises. */
  function PeakHours(days: seq<Day>): Result<seq<Peak>, TypeError>
  {
    if days == [] then Success([])
    else
      match PeakHours(days[..|days| - 1])
      case Failure(e) => Failure(e)
      case Success(peaks) =>
        match DayPeak(days[|days| - 1])
        case Failure(e) => Failure(e)
        case Success(p) => Success(peaks + [p])
  }

  method FindPeakHours(days: seq<Day>) returns (r: Result<seq<Peak>, TypeError>)
    ensures r == PeakHours(days)
  {
    var peakHours: seq<Peak> := [];
    for d := 0 to |days|
      invariant PeakHours(days[..d]) == Success(peakHours)
    {
      assert days[..d + 1][..d] == days[..d];
      var date := days[d].date;
      var hourly := days[d].hourly;
      if hourly == [] {
        peakHours := peakHours + [Peak(date, Some("12:00"), Some(0.0))];
        continue;
      }
      var maxTemp: Option<real> := None;
      var peakHour: Option<string> := None;
      for h := 0 to |hourly|
        invariant Fold(hourly[..h]) == Success(Running(maxTemp, peakHour))
      {
        assert hourly[..h + 1][..h] == hourly[..h];
        var temp := hourly[h].temperature;
        var time := hourly[h].time;
        if maxTemp.None? {
          maxTemp, peakHour := temp, time;
        } else if temp.None? {
          BlockedDay(days, d, h);
          return Failure(TypeError);
        } else if temp.value > maxTemp.value {
          maxTemp, peakHour := temp, time;
        }
      }
      assert hourly[..|hourly|] == hourly;
      peakHours := peakHours + [Peak(date, peakHour, maxTemp)];
    }
    assert days[..|days|] == days;
    r := Success(peakHours);
  }

  /** A failure on day `d` is the failure of the whole call. */
  lemma BlockedDay(days: seq<Day>, d: nat, h: nat)
    requires d < |days| && h < |days[d].hourly|
    requires Fold(days[d].hourly[..h + 1]).Failure?
    ensures PeakHours(days) == Failure(TypeError)
  {
    ShortFoldFails(days[d].hourly, h + 1);
    PeakHoursDayFails(days, d);
  }

  lemma {:induction false} ShortFoldFails(hours: seq<Hour>, k: nat)
    requires k <= |hours| && Fold(hours[..k]).Failure?
    ensures Fold(hours) == Failure(TypeError)
    decreases |hours| - k
  {
    if k < |hours| {
      assert hours[..k + 1][..k] == hours[..k];
      ShortFoldFails(hours, k + 1);
    } else {
      assert hours[..k] == hours;
      assert Fold(hours).error.TypeError?;
    }
  }

  lemma {:induction false} PeakHoursDayFails(days: seq<Day>, d: nat)
    requires d < |days| && DayPeak(days[d]).Failure?
    ensures PeakHours(days) == Failure(TypeError)
  {
    if d < |days| - 1 {
      PeakHoursDayFails(days[..|days| - 1], d);
    } else {
      assert PeakHours(days).Failure? && PeakHours(days).error.TypeError?;
    }
  }

  /** When the call succeeds there is one entry per day, in the same order, with the same date. */
  lemma {:induction false} PeaksOnePerDay(days: seq<Day>)
    requires PeakHours(days).Success?
    ensures var peaks := PeakHours(days).value;
      |peaks| == |days| &&
      forall i :: 0 <= i < |days| ==> DayPeak(days[i]) == Success(peaks[i]) && peaks[i].date == days[i].date
  {
    if days != [] {
      PeaksOnePerDay(days[..|days| - 1]);
    }
  }

  /** A day without hourly data is reported at `'12:00'` with `0.0`. */
  lemma EmptyDayDefault(date: string)
    ensures DayPeak(Day(date, [])) == Success(Peak(date, Some("12:00"), Some(0.0)))
  {
  }

  predicate HasReading(h: Hour)
  {
    h.temperature.Some?
  }

  /** Once the fold has taken a number it holds one; before that it holds nothing. */
  lemma {:induction false} FoldHoldsNumber(hours: seq<Hour>)
    requires Fold(hours).Success?
    ensures Fold(hours).value.maxTemp.Some? <==> exists i :: 0 <= i < |hours| && HasReading(hours[i])
  {
    if hours != [] {
      var init := hours[..|hours| - 1];
      FoldHoldsNumber(init);
      if exists i :: 0 <= i < |init| && HasReading(init[i]) {
        var i :| 0 <= i < |init| && HasReading(init[i]);
        assert HasReading(hours[i]);
      }
      if exists i :: 0 <= i < |hours| && HasReading(hours[i]) {
        var i :| 0 <= i < |hours| && HasReading(hours[i]);
        if i < |init| {
          assert HasReading(init[i]);
        }
      }
    }
  }

  /** The comparison fails exactly when some missing reading follows a numeric one. */
  lemma {:induction false} FoldFails(hours: seq<Hour>)
    ensures Fold(hours).Failure? <==>
      exists i, j :: 0 <= i < j < |hours| && HasReading(hours[i]) && !HasReading(hours[j])
  {
    if hours != [] {
      var init := hours[..|hours| - 1];
      var last := hours[|hours| - 1];
      FoldFails(init);
      if exists i, j :: 0 <= i < j < |init| && HasReading(init[i]) && !HasReading(init[j]) {
        var i, j :| 0 <= i < j < |init| && HasReading(init[i]) && !HasReading(init[j]);
        assert HasReading(hours[i]) && !HasReading(hours[j]);
      }
      if Fold(init).Success? {
        FoldHoldsNumber(init);
        if exists i :: 0 <= i < |init| && HasReading(init[i]) {
          var i :| 0 <= i < |init| && HasReading(init[i]);
          assert HasReading(hours[i]);
        }
        if exists i, j :: 0 <= i < j < |hours| && HasReading(hours[i]) && !HasReading(hours[j]) {
          var i, j :| 0 <= i < j < |hours| && HasReading(hours[i]) && !HasReading(hours[j]);
          assert HasReading(init[i]);
          if j < |init| {
            assert !HasReading(init[j]);
          }
        }
      }
    }
  }

  /**
   * On a day whose every hour has a reading, the peak temperature is the
   * day's maximum and the peak hour is the time of the EARLIEST hour that
   * reaches it (the comparison is strict, so a later tie does not replace it).
   */
  lemma {:induction false} FoldMaximum(hours: seq<Hour>) returns (k: nat)
    requires hours != [] && forall i :: 0 <= i < |hours| ==> hours[i].temperature.Some?
    ensures Fold(hours).Success?
    ensures var st := Fold(hours).value;
      k < |hours| && st.maxTemp == hours[k].temperature && st.peakHour == hours[k].time &&
      (forall i :: 0 <= i < |hours| ==> hours[i].temperature.value <= st.maxTemp.value) &&
      (forall i :: 0 <= i < k ==> hours[i].temperature.value < st.maxTemp.value)
  {
    var init := hours[..|hours| - 1];
    var last := hours[|hours| - 1];
    if init == [] {
      k := 0;
    } else {
      assert forall i :: 0 <= i < |init| ==> init[i] == hours[i];
      k := FoldMaximum(init);
      var m := Fold(init).value.maxTemp.value;
      if last.temperature.value > m {
        k := |hours| - 1;
      }
    }
  }

  /** For a day with readings throughout, the reported peak is its maximum at its first occurrence. */
  lemma DayPeakIsFirstMaximum(day: Day)
    requires day.hourly != [] && forall i :: 0 <= i < |day.hourly| ==> day.hourly[i].temperature.Some?
    ensures DayPeak(day).Success?
    ensures exists k :: (0 <= k < |day.hourly| &&
      DayPeak(day).value == Peak(day.date, day.hourly[k].time, day.hourly[k].temperature) &&
      (forall i :: 0 <= i < |day.hourly| ==> day.hourly[i].temperature.value <= day.hourly[k].temperature.value) &&
      (forall i :: 0 <= i < k ==> day.hourly[i].temperature.value < day.hourly[k].temperature.value))
  {
    var k := FoldMaximum(day.hourly);
  }

  /** Two hours that tie at the maximum: the earlier one is the peak. */
  lemma TieKeepsEarliest()
    ensures DayPeak(Day("2024-08-18", [Hour(Some("12:00"), Some(30.0)), Hour(Some("15:00"), Some(30.0))]))
      == Success(Peak("2024-08-18", Some("12:00"), Some(30.0)))
  {
    var hours := [Hour(Some("12:00"), Some(30.0)), Hour(Some("15:00"), Some(30.0))];
    assert hours[..1] == [hours[0]];
    assert hours[..1][..0] == [];
    assert Fold(hours[..1]) == Success(Running(Some(30.0), Some("12:00")));
    assert Fold(hours) == Success(Running(Some(30.0), Some("12:00")));
  }
}
