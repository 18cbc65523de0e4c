/**
 * Gap filling for the daily weather series of examples_py/example4.py:
 * linear interpolation for temperatures, a clipped moving average for
 * humidity and wind speed, and the per-field driver that reports counts.
 */
module Imputation {
  import opened Wrappers
  import Stats

  /** One measurement; `None` is the missing sentinel (NaN in the numpy array). */
  type Sample = Option<real>

  function CountMissing(xs: seq<Sample>): (k: nat)
    ensures k <= |xs|
  {
    if xs == [] then 0
    else CountMissing(xs[..|xs| - 1]) + (if xs[|xs| - 1].None? then 1 else 0)
  }

  /** No missing value counted exactly when every position is present. */
  lemma {:induction false} CountMissingZero(xs: seq<Sample>)
    ensures CountMissing(xs) == 0 <==> forall i :: 0 <= i < |xs| ==> xs[i].Some?
  {
    if xs != [] {
      CountMissingZero(xs[..|xs| - 1]);
      assert forall i :: 0 <= i < |xs| - 1 ==> xs[..|xs| - 1][i] == xs[i];
    }
  }

  /** Every position counted exactly when every position is missing. */
  lemma {:induction false} CountMissingAll(xs: seq<Sample>)
    ensures CountMissing(xs) == |xs| <==> forall i :: 0 <= i < |xs| ==> xs[i].None?
  {
    if xs != [] {
      CountMissingAll(xs[..|xs| - 1]);
      assert forall i :: 0 <= i < |xs| - 1 ==> xs[..|xs| - 1][i] == xs[i];
    }
  }

  lemma CountMissingSnoc(xs: seq<Sample>, x: Sample)
    ensures CountMissing(xs + [x]) == CountMissing(xs) + (if x.None? then 1 else 0)
  {
    assert (xs + [x])[..|xs|] == xs;
  }

  /** Two present positions make at least two present values. */
  lemma {:induction false} TwoPresent(xs: seq<Sample>, i: nat, j: nat)
    requires i < j < |xs| && xs[i].Some? && xs[j].Some?
    ensures CountMissing(xs) <= |xs| - 2
  {
    var p := xs[..|xs| - 1];
    assert p[i] == xs[i];
    if j == |xs| - 1 {
      CountMissingAll(p);
    } else {
      assert p[j] == xs[j];
      TwoPresent(p, i, j);
    }
  }

  /** The length of `np.where(~missing_mask)[0]`. */
  function CountPresent(xs: seq<Sample>): nat
  {
    |xs| - CountMissing(xs)
  }

  /** `np.isnan(arr)`, taken once before any position is filled. */
  function MissingMask(xs: seq<Sample>): (mask: seq<bool>)
    ensures |mask| == |xs|
    ensures forall i :: 0 <= i < |xs| ==> (mask[i] <==> xs[i].None?)
  {
    seq(|xs|, i requires 0 <= i < |xs| => xs[i].None?)
  }

  // ---------------------------------------------------------------------
  // Linear interpolation (linear_interpolation_buggy)
  // ---------------------------------------------------------------------

  /** The nearest present index strictly left of `i` (the scan `range(i-1, -1, -1)`). */
  function LastPresentBefore(xs: seq<Sample>, i: nat): (r: Option<nat>)
    requires i <= |xs|
    ensures r.Some? ==> r.value < i && xs[r.value].Some?
    ensures r.Some? ==> forall j :: r.value < j < i ==> xs[j].None?
    ensures r.None? ==> forall j :: 0 <= j < i ==> xs[j].None?
  {
    if i == 0 then None
    else if xs[i - 1].Some? then Some(i - 1)
    else LastPresentBefore(xs, i - 1)
  }

  /** The nearest present index at or right of `j` (the scan `range(i+1, len(arr))` from `j = i+1`). */
  function FirstPresentFrom(xs: seq<Sample>, j: nat): (r: Option<nat>)
    requires j <= |xs|
    ensures r.Some? ==> j <= r.value < |xs| && xs[r.value].Some?
    ensures r.Some? ==> forall k :: j <= k < r.value ==> xs[k].None?
    ensures r.None? ==> forall k :: j <= k < |xs| ==> xs[k].None?
    decreases |xs| - j
  {
    if j == |xs| then None
    else if xs[j].Some? then Some(j)
    else FirstPresentFrom(xs, j + 1)
  }

  /** `y1 + (y2 - y1) * (i - x1) / (x2 - x1)` */
  function Lerp(x1: nat, y1: real, x2: nat, y2: real, i: nat): real
    requires x1 < x2
  {
    y1 + (y2 - y1) * ((i - x1) as real) / ((x2 - x1) as real)
  }

  /** What the interpolation loop writes at position `i`, from the original neighbours only. */
  function FillAt(xs: seq<Sample>, i: nat): Sample
    requires i < |xs|
  {
    if xs[i].Some? then xs[i]
    else
      match (LastPresentBefore(xs, i), FirstPresentFrom(xs, i + 1))
      case (Some(l), Some(r)) => Some(Lerp(l, xs[l].value, r, xs[r].value, i))
      case (Some(l), None) => xs[l]
      case (None, Some(r)) => xs[r]
      case (None, None) => None
  }

  /** The value `linear_interpolation_buggy` returns. */
  function Interpolated(xs: seq<Sample>): (r: seq<Sample>)
    ensures |r| == |xs|
    ensures forall i :: 0 <= i < |xs| && xs[i].Some? ==> r[i] == xs[i]
  {
    if |xs| == 0 || CountMissing(xs) == 0 || CountPresent(xs) < 2 then xs
    else seq(|xs|, i requires 0 <= i < |xs| => FillAt(xs, i))
  }

  method LinearInterpolation(values: seq<Sample>) returns (result: seq<Sample>)
    ensures result == Interpolated(values)
  {
    if |values| == 0 {
      return values;
    }
    var n := |values|;
    var arr := new Sample[n](k requires 0 <= k < n => values[k]);
    var missingMask := new bool[n](k requires 0 <= k < n => values[k].None?);
    if CountMissing(values) == 0 {
      return values;
    }
    if CountPresent(values) < 2 {
      return values;
    }
    var i := 0;
    while i < n
      modifies arr
      invariant 0 <= i <= n
      invariant forall k :: 0 <= k < i ==> arr[k] == FillAt(values, k)
      invariant forall k :: i <= k < n ==> arr[k] == values[k]
    {
      if missingMask[i] {
        FillGap(arr, missingMask, values, i);
      }
      i := i + 1;
    }
    result := arr[..];
    assert forall k :: 0 <= k < n ==> result[k] == Interpolated(values)[k];
  }

  /** The body of the loop at a masked position `i`: find both boundaries, then interpolate or propagate. */
  method FillGap(arr: array<Sample>, missingMask: array<bool>, values: seq<Sample>, i: nat)
    requires arr.Length == missingMask.Length == |values| && i < |values| && values[i].None?
    requires forall k :: 0 <= k < |values| ==> (missingMask[k] <==> values[k].None?)
    requires forall k :: 0 <= k < |values| && values[k].Some? ==> arr[k] == values[k]
    requires arr[i] == values[i]
    modifies arr
    ensures arr[i] == FillAt(values, i)
    ensures forall k :: 0 <= k < arr.Length && k != i ==> arr[k] == old(arr[k])
  {
    var leftIdx := ScanLeft(missingMask, values, i);
    var rightIdx := ScanRight(missingMask, values, i);
    if leftIdx.Some? && rightIdx.Some? {
      var x1, y1 := leftIdx.value, arr[leftIdx.value].value;
      var x2, y2 := rightIdx.value, arr[rightIdx.value].value;
      arr[i] := Some(Lerp(x1, y1, x2, y2, i));
    } else if leftIdx.Some? {
      arr[i] := arr[leftIdx.value];
    } else if rightIdx.Some? {
      arr[i] := arr[rightIdx.value];
    }
  }

  /** The left-boundary scan: `for j in range(i-1, -1, -1)`, stopping at the first unmasked `j`. */
  method ScanLeft(missingMask: array<bool>, values: seq<Sample>, i: nat) returns (leftIdx: Option<nat>)
    requires missingMask.Length == |values| && i <= |values|
    requires forall k :: 0 <= k < |values| ==> (missingMask[k] <==> values[k].None?)
    ensures leftIdx == LastPresentBefore(values, i)
  {
    leftIdx := None;
    var j := i - 1;
    while j >= 0
      invariant -1 <= j < i
      invariant leftIdx.None?
      invariant LastPresentBefore(values, i) == LastPresentBefore(values, j + 1)
    {
      if !missingMask[j] {
        leftIdx := Some(j);
        break;
      }
      j := j - 1;
    }
  }

  /** The right-boundary scan: `for j in range(i+1, len(arr))`, stopping at the first unmasked `j`. */
  method ScanRight(missingMask: array<bool>, values: seq<Sample>, i: nat) returns (rightIdx: Option<nat>)
    requires missingMask.Length == |values| && i < |values|
    requires forall k :: 0 <= k < |values| ==> (missingMask[k] <==> values[k].None?)
    ensures rightIdx == FirstPresentFrom(values, i + 1)
  {
    rightIdx := None;
    var j := i + 1;
    while j < missingMask.Length
      invariant i + 1 <= j <= missingMask.Length
      invariant rightIdx.None?
      invariant FirstPresentFrom(values, i + 1) == FirstPresentFrom(values, j)
    {
      if !missingMask[j] {
        rightIdx := Some(j);
        break;
      }
      j := j + 1;
    }
  }

  /** With two or more present values every missing position is filled. */
  lemma InterpolationFillsAll(xs: seq<Sample>)
    requires CountPresent(xs) >= 2
    ensures forall i :: 0 <= i < |xs| ==> Interpolated(xs)[i].Some?
  {
    if CountMissing(xs) > 0 {
      forall i | 0 <= i < |xs|
        ensures Interpolated(xs)[i].Some?
      {
        if xs[i].None? && LastPresentBefore(xs, i).None? && FirstPresentFrom(xs, i + 1).None? {
          assert forall k :: 0 <= k < |xs| ==> xs[k].None?;
          CountMissingAll(xs);
          assert false;
        }
      }
    } else {
      CountMissingZero(xs);
    }
  }

  /** The interpolation leaves its input unchanged when it is complete or has fewer than two present values. */
  lemma InterpolationUnchanged(xs: seq<Sample>)
    requires CountMissing(xs) == 0 || CountPresent(xs) < 2
    ensures Interpolated(xs) == xs
  {
  }

  /** Running the interpolation on its own output changes nothing. */
  lemma InterpolationIdempotent(xs: seq<Sample>)
    ensures Interpolated(Interpolated(xs)) == Interpolated(xs)
  {
    if CountPresent(xs) >= 2 {
      InterpolationFillsAll(xs);
      CountMissingZero(Interpolated(xs));
      InterpolationUnchanged(Interpolated(xs));
    }
  }

  /** The linear value at `i` between `(x1, y1)` and `(x2, y2)` lies between `y1` and `y2`. */
  lemma LerpBetween(x1: nat, y1: real, x2: nat, y2: real, i: nat)
    requires x1 <= i <= x2 && x1 < x2
    ensures var v := Lerp(x1, y1, x2, y2, i);
      (y1 <= y2 ==> y1 <= v <= y2) && (y2 <= y1 ==> y2 <= v <= y1)
  {
    var d, a, b := y2 - y1, (i - x1) as real, (x2 - x1) as real;
    var t := a / b;
    FractionUnit(a, b);
    assert d * a / b == d * t;
    assert Lerp(x1, y1, x2, y2, i) == y1 + d * t;
    ScaleBetween(d, t);
    assert y2 == y1 + d;
  }

  lemma FractionUnit(a: real, b: real)
    requires 0.0 <= a <= b && b > 0.0
    ensures 0.0 <= a / b <= 1.0
  {
    assert b / b == 1.0;
  }

  /** Scaling by a factor in `[0, 1]` stays between zero and the scaled amount. */
  lemma ScaleBetween(d: real, t: real)
    requires 0.0 <= t <= 1.0
    ensures d >= 0.0 ==> 0.0 <= d * t <= d
    ensures d <= 0.0 ==> d <= d * t <= 0.0
  {
    assert d - d * t == d * (1.0 - t);
  }

  /** An interior gap takes the linear value between its original neighbours, and lies between them. */
  lemma InterpolationInterior(xs: seq<Sample>, i: nat, l: nat, r: nat)
    requires i < |xs| && xs[i].None? && CountPresent(xs) >= 2
    requires LastPresentBefore(xs, i) == Some(l) && FirstPresentFrom(xs, i + 1) == Some(r)
    ensures Interpolated(xs)[i] == Some(Lerp(l, xs[l].value, r, xs[r].value, i))
    ensures var y1, y2, v := xs[l].value, xs[r].value, Interpolated(xs)[i].value;
      (y1 <= y2 ==> y1 <= v <= y2) && (y2 <= y1 ==> y2 <= v <= y1)
  {
    CountMissingZero(xs);
    assert Interpolated(xs)[i] == FillAt(xs, i);
    LerpBetween(l, xs[l].value, r, xs[r].value, i);
  }

  /** A leading gap takes the first present value (backward fill). */
  lemma InterpolationLeadingGap(xs: seq<Sample>, i: nat, p: nat)
    requires CountPresent(xs) >= 2 && FirstPresentFrom(xs, 0) == Some(p) && i < p
    ensures Interpolated(xs)[i] == xs[p]
  {
    CountMissingZero(xs);
    assert LastPresentBefore(xs, i).None?;
    assert FirstPresentFrom(xs, i + 1) == Some(p) by {
      FirstPresentFromSkips(xs, 0, i + 1);
    }
    assert Interpolated(xs)[i] == FillAt(xs, i);
  }

  /** A trailing gap takes the last present value (forward fill). */
  lemma InterpolationTrailingGap(xs: seq<Sample>, i: nat, q: nat)
    requires CountPresent(xs) >= 2 && LastPresentBefore(xs, |xs|) == Some(q) && q < i < |xs|
    ensures Interpolated(xs)[i] == xs[q]
  {
    CountMissingZero(xs);
    assert FirstPresentFrom(xs, i + 1).None?;
    assert LastPresentBefore(xs, i) == Some(q) by {
      LastPresentBeforeSkips(xs, |xs|, i);
    }
    assert Interpolated(xs)[i] == FillAt(xs, i);
  }

  lemma {:induction false} FirstPresentFromSkips(xs: seq<Sample>, j: nat, k: nat)
    requires j <= k <= |xs|
    requires forall m :: j <= m < k ==> xs[m].None?
    ensures FirstPresentFrom(xs, j) == FirstPresentFrom(xs, k)
    decreases k - j
  {
    if j < k {
      FirstPresentFromSkips(xs, j + 1, k);
    }
  }

  lemma {:induction false} LastPresentBeforeSkips(xs: seq<Sample>, j: nat, k: nat)
    requires k <= j <= |xs|
    requires forall m :: k <= m < j ==> xs[m].None?
    ensures LastPresentBefore(xs, j) == LastPresentBefore(xs, k)
    decreases j - k
  {
    if k < j {
      LastPresentBeforeSkips(xs, j - 1, k);
    }
  }

  lemma ExampleGapFills()
    ensures var xs: seq<Sample> := [None, Some(2.0), None, Some(4.0), None];
      FillAt(xs, 0) == Some(2.0) && FillAt(xs, 2) == Some(3.0) && FillAt(xs, 4) == Some(4.0)
  {
    var xs: seq<Sample> := [None, Some(2.0), None, Some(4.0), None];
    assert LastPresentBefore(xs, 0) == None;
    assert FirstPresentFrom(xs, 1) == Some(1);
    assert LastPresentBefore(xs, 2) == Some(1);
    assert FirstPresentFrom(xs, 3) == Some(3);
    assert LastPresentBefore(xs, 4) == Some(3);
    assert FirstPresentFrom(xs, 5) == None;
    assert Lerp(1, 2.0, 3, 4.0, 2) == 3.0;
  }

  /** `[NA, 2, NA, 4, NA]` becomes `[2, 2, 3, 4, 4]`. */
  lemma InterpolationExample()
    ensures Interpolated([None, Some(2.0), None, Some(4.0), None])
         == [Some(2.0), Some(2.0), Some(3.0), Some(4.0), Some(4.0)]
  {
    var xs: seq<Sample> := [None, Some(2.0), None, Some(4.0), None];
    CountMissingZero(xs);
    TwoPresent(xs, 1, 3);
    ExampleGapFills();
    var r := Interpolated(xs);
    assert r[0] == FillAt(xs, 0) && r[2] == FillAt(xs, 2) && r[4] == FillAt(xs, 4);
  }

  // ---------------------------------------------------------------------
  // Moving average (moving_average_imputation_buggy)
  // ---------------------------------------------------------------------

  function Max(a: int, b: int): int { if a < b then b else a }
  function Min(a: int, b: int): int { if a < b then a else b }

  /** How Python resolves a slice bound `b` against a sequence of length `n` (negative counts from the end). */
  function SliceBound(b: int, n: nat): (r: nat)
    ensures r <= n
    ensures 0 <= b <= n ==> r == b
  {
    if b < 0 then (if b + n < 0 then 0 else b + n)
    else if b > n then n
    else b
  }

  /** `a[start:end]` with Python's slice semantics. */
  function PySlice(a: seq<Sample>, start: int, end: int): (r: seq<Sample>)
    ensures |r| <= |a|
  {
    var s, e := SliceBound(start, |a|), SliceBound(end, |a|);
    if s < e then a[s..e] else []
  }

  /** A slice holds only elements of the sliced sequence. */
  lemma PySliceMembers(a: seq<Sample>, start: int, end: int)
    ensures forall x :: x in PySlice(a, start, end) ==> x in a
  {
  }

  /** `window_values[~np.isnan(window_values)]`: the present values, in order. */
  function Present(s: seq<Sample>): (vs: seq<real>)
    ensures |vs| <= |s|
  {
    if s == [] then []
    else (if s[0].Some? then [s[0].value] else []) + Present(s[1..])
  }

  /** The present values are exactly the payloads of the `Some` entries. */
  lemma {:induction false} PresentMembers(s: seq<Sample>)
    ensures forall v :: v in Present(s) <==> Some(v) in s
  {
    if s != [] {
      PresentMembers(s[1..]);
      assert s == [s[0]] + s[1..];
    }
  }

  /** One iteration of the loop: position `i` of the CURRENT array, window clipped to the bounds. */
  function AverageStep(a: seq<Sample>, missingMask: seq<bool>, window: int, i: nat): (r: seq<Sample>)
    requires |missingMask| == |a| && i < |a|
    ensures |r| == |a|
  {
    if missingMask[i] then
      var start := Max(0, i - window / 2);
      var end := Min(|a|, i + window / 2 + 1);
      var validValues := Present(PySlice(a, start, end));
      if |validValues| > 0 then a[i := Some(Stats.Mean(validValues))] else a
    else a
  }

  /** The array after the loop has handled positions `0 .. k-1`, left to right. */
  function AveragePass(a: seq<Sample>, missingMask: seq<bool>, window: int, k: nat): (r: seq<Sample>)
    requires |missingMask| == |a| && k <= |a|
    ensures |r| == |a|
  {
    if k == 0 then a
    else AverageStep(AveragePass(a, missingMask, window, k - 1), missingMask, window, k - 1)
  }

  /** The value `moving_average_imputation_buggy(values, window)` returns. */
  function MovingAverage(xs: seq<Sample>, window: int): (r: seq<Sample>)
    ensures |r| == |xs|
  {
    if |xs| == 0 || CountMissing(xs) == 0 then xs
    else AveragePass(xs, MissingMask(xs), window, |xs|)
  }

  /** One step of the pass, given the present values of the window it reads. */
  lemma AverageStepAt(a: seq<Sample>, missingMask: seq<bool>, window: int, i: nat, validValues: seq<real>)
    requires |missingMask| == |a| && i < |a| && missingMask[i]
    requires validValues == Present(PySlice(a, Max(0, i - window / 2), Min(|a|, i + window / 2 + 1)))
    ensures |validValues| > 0 ==> AverageStep(a, missingMask, window, i) == a[i := Some(Stats.Mean(validValues))]
    ensures |validValues| == 0 ==> AverageStep(a, missingMask, window, i) == a
  {
  }

  method MovingAverageImputation(values: seq<Sample>, window: int) returns (result: seq<Sample>)
    ensures result == MovingAverage(values, window)
  {
    if |values| == 0 {
      return values;
    }
    var n := |values|;
    var arr := new Sample[n](k requires 0 <= k < n => values[k]);
    var missingMask := new bool[n](k requires 0 <= k < n => values[k].None?);
    if CountMissing(values) == 0 {
      return values;
    }
    ghost var mask := MissingMask(values);
    assert missingMask[..] == mask;
    var i := 0;
    while i < n
      modifies arr
      invariant 0 <= i <= n
      invariant arr[..] == AveragePass(values, mask, window, i)
    {
      ghost var before := arr[..];
      assert AveragePass(values, mask, window, i + 1) == AverageStep(before, mask, window, i);
      if missingMask[i] {
        var start := Max(0, i - window / 2);
        var end := Min(n, i + window / 2 + 1);
        var windowValues := PySlice(arr[..], start, end);
        var validValues := Present(windowValues);
        AverageStepAt(before, mask, window, i, validValues);
        if |validValues| > 0 {
          arr[i] := Some(Stats.Mean(validValues));
          assert arr[..] == before[i := Some(Stats.Mean(validValues))];
        }
      }
      i := i + 1;
    }
    result := arr[..];
  }

  lemma {:induction false} AveragePassKeepsPresent(a: seq<Sample>, mask: seq<bool>, window: int, k: nat)
    requires |mask| == |a| && k <= |a|
    ensures forall j :: 0 <= j < |a| && !mask[j] ==> AveragePass(a, mask, window, k)[j] == a[j]
  {
    if k > 0 {
      AveragePassKeepsPresent(a, mask, window, k - 1);
    }
  }

  /** The moving average writes only originally-missing positions. */
  lemma MovingAverageKeepsPresent(xs: seq<Sample>, window: int)
    ensures forall j :: 0 <= j < |xs| && xs[j].Some? ==> MovingAverage(xs, window)[j] == xs[j]
  {
    if |xs| > 0 && CountMissing(xs) > 0 {
      AveragePassKeepsPresent(xs, MissingMask(xs), window, |xs|);
    }
  }

  lemma {:induction false} PresentOfAllMissing(s: seq<Sample>)
    requires forall j :: 0 <= j < |s| ==> s[j].None?
    ensures Present(s) == []
  {
    if s != [] {
      PresentOfAllMissing(s[1..]);
    }
  }

  lemma {:induction false} AveragePassAllMissing(a: seq<Sample>, mask: seq<bool>, window: int, k: nat)
    requires |mask| == |a| && k <= |a|
    requires forall j :: 0 <= j < |a| ==> a[j].None?
    ensures AveragePass(a, mask, window, k) == a
  {
    if k > 0 {
      AveragePassAllMissing(a, mask, window, k - 1);
      AverageStepAllMissing(a, mask, window, k - 1);
    }
  }

  lemma AverageStepAllMissing(a: seq<Sample>, mask: seq<bool>, window: int, i: nat)
    requires |mask| == |a| && i < |a|
    requires forall j :: 0 <= j < |a| ==> a[j].None?
    ensures AverageStep(a, mask, window, i) == a
  {
    if mask[i] {
      var s := PySlice(a, Max(0, i - window / 2), Min(|a|, i + window / 2 + 1));
      PySliceMembers(a, Max(0, i - window / 2), Min(|a|, i + window / 2 + 1));
      assert forall j :: 0 <= j < |s| ==> s[j] in a;
      PresentOfAllMissing(s);
    }
  }

  /** A window with no present value leaves its position missing: an all-missing series stays all missing. */
  lemma MovingAverageAllMissing(xs: seq<Sample>, window: int)
    requires forall j :: 0 <= j < |xs| ==> xs[j].None?
    ensures MovingAverage(xs, window) == xs
  {
    if |xs| > 0 && CountMissing(xs) > 0 {
      AveragePassAllMissing(xs, MissingMask(xs), window, |xs|);
    }
  }

  /** Every present value of `a` lies in `[lo, hi]`. */
  ghost predicate InRange(a: seq<Sample>, lo: real, hi: real)
  {
    forall v :: Some(v) in a ==> lo <= v <= hi
  }

  lemma AverageStepInRange(a: seq<Sample>, mask: seq<bool>, window: int, i: nat, lo: real, hi: real)
    requires |mask| == |a| && i < |a| && InRange(a, lo, hi)
    ensures InRange(AverageStep(a, mask, window, i), lo, hi)
  {
    if mask[i] {
      var w := PySlice(a, Max(0, i - window / 2), Min(|a|, i + window / 2 + 1));
      var vs := Present(w);
      PySliceMembers(a, Max(0, i - window / 2), Min(|a|, i + window / 2 + 1));
      PresentMembers(w);
      if |vs| > 0 {
        assert forall k :: 0 <= k < |vs| ==> lo <= vs[k] <= hi by {
          forall k | 0 <= k < |vs| ensures lo <= vs[k] <= hi {
            assert vs[k] in vs;
          }
        }
        Stats.MeanBounds(vs, lo, hi);
        var r := a[i := Some(Stats.Mean(vs))];
        forall v | Some(v) in r ensures lo <= v <= hi {
          var k :| 0 <= k < |r| && r[k] == Some(v);
          if k != i {
            assert a[k] == Some(v);
          }
        }
      }
    }
  }

  lemma {:induction false} AveragePassInRange(a: seq<Sample>, mask: seq<bool>, window: int, k: nat, lo: real, hi: real)
    requires |mask| == |a| && k <= |a| && InRange(a, lo, hi)
    ensures InRange(AveragePass(a, mask, window, k), lo, hi)
  {
    if k > 0 {
      AveragePassInRange(a, mask, window, k - 1, lo, hi);
      AverageStepInRange(AveragePass(a, mask, window, k - 1), mask, window, k - 1, lo, hi);
    }
  }

  /** Filled values never leave the range of the observed values, even though filled values feed later windows. */
  lemma MovingAverageInRange(xs: seq<Sample>, window: int, lo: real, hi: real)
    requires InRange(xs, lo, hi)
    ensures InRange(MovingAverage(xs, window), lo, hi)
  {
    if |xs| > 0 && CountMissing(xs) > 0 {
      AveragePassInRange(xs, MissingMask(xs), window, |xs|, lo, hi);
    }
  }

  lemma PresentCons(x: Sample, s: seq<Sample>)
    ensures Present([x] + s) == (if x.Some? then [x.value] else []) + Present(s)
  {
    assert ([x] + s)[1..] == s;
  }

  lemma MeanOfTwo(a: real, b: real)
    ensures Stats.Mean([a, b]) == (a + b) / 2.0
  {
    assert Stats.Sum([a]) == a by {
      assert [a][..0] == [];
    }
    assert Stats.Sum([a, b]) == Stats.Sum([a]) + b by {
      assert [a, b][..1] == [a];
    }
  }

  lemma MeanOfOne(a: real)
    ensures Stats.Mean([a]) == a
  {
    assert Stats.Sum([a]) == a by {
      assert [a][..0] == [];
    }
  }

  /** The window `[1, NA, 3]` of position 1 averages to 2. */
  lemma ExampleStepOne()
    ensures AverageStep([Some(1.0), None, Some(3.0), None, Some(5.0)], [false, true, false, true, false], 3, 1)
         == [Some(1.0), Some(2.0), Some(3.0), None, Some(5.0)]
  {
    var xs: seq<Sample> := [Some(1.0), None, Some(3.0), None, Some(5.0)];
    assert PySlice(xs, 0, 3) == [Some(1.0)] + ([None] + [Some(3.0)]);
    PresentCons(Some(1.0), [None] + [Some(3.0)]);
    PresentCons(None, [Some(3.0)]);
    PresentCons(Some(3.0), []);
    assert Present(PySlice(xs, 0, 3)) == [1.0, 3.0];
    MeanOfTwo(1.0, 3.0);
    assert xs[1 := Some(2.0)] == [Some(1.0), Some(2.0), Some(3.0), None, Some(5.0)];
  }

  /** The window `[3, NA, 5]` of position 3 averages to 4. */
  lemma ExampleStepThree()
    ensures AverageStep([Some(1.0), Some(2.0), Some(3.0), None, Some(5.0)], [false, true, false, true, false], 3, 3)
         == [Some(1.0), Some(2.0), Some(3.0), Some(4.0), Some(5.0)]
  {
    var a2: seq<Sample> := [Some(1.0), Some(2.0), Some(3.0), None, Some(5.0)];
    assert PySlice(a2, 2, 5) == [Some(3.0)] + ([None] + [Some(5.0)]);
    PresentCons(Some(3.0), [None] + [Some(5.0)]);
    PresentCons(None, [Some(5.0)]);
    PresentCons(Some(5.0), []);
    assert Present(PySlice(a2, 2, 5)) == [3.0, 5.0];
    MeanOfTwo(3.0, 5.0);
    assert a2[3 := Some(4.0)] == [Some(1.0), Some(2.0), Some(3.0), Some(4.0), Some(5.0)];
  }

  /** `[1, NA, 3, NA, 5]` with window 3 becomes `[1, 2, 3, 4, 5]`. */
  lemma MovingAverageExample()
    ensures MovingAverage([Some(1.0), None, Some(3.0), None, Some(5.0)], 3)
         == [Some(1.0), Some(2.0), Some(3.0), Some(4.0), Some(5.0)]
  {
    var xs: seq<Sample> := [Some(1.0), None, Some(3.0), None, Some(5.0)];
    var mask := [false, true, false, true, false];
    assert MissingMask(xs) == mask;
    CountMissingZero(xs);
    var a2: seq<Sample> := [Some(1.0), Some(2.0), Some(3.0), None, Some(5.0)];
    var a4: seq<Sample> := [Some(1.0), Some(2.0), Some(3.0), Some(4.0), Some(5.0)];
    assert AveragePass(xs, mask, 3, 1) == xs;
    ExampleStepOne();
    assert AveragePass(xs, mask, 3, 2) == a2;
    assert AveragePass(xs, mask, 3, 3) == a2;
    ExampleStepThree();
    assert AveragePass(xs, mask, 3, 4) == a4;
    assert AveragePass(xs, mask, 3, 5) == a4;
  }

  lemma FilledStepOne()
    ensures AverageStep([Some(1.0), None, None, None], [false, true, true, true], 3, 1)
         == [Some(1.0), Some(1.0), None, None]
  {
    var xs: seq<Sample> := [Some(1.0), None, None, None];
    assert PySlice(xs, 0, 3) == [Some(1.0)] + [None, None];
    PresentCons(Some(1.0), [None, None]);
    PresentOfAllMissing([None, None]);
    MeanOfOne(1.0);
  }

  lemma FilledStepTwo()
    ensures AverageStep([Some(1.0), Some(1.0), None, None], [false, true, true, true], 3, 2)
         == [Some(1.0), Some(1.0), Some(1.0), None]
  {
    var a2: seq<Sample> := [Some(1.0), Some(1.0), None, None];
    assert PySlice(a2, 1, 4) == [Some(1.0)] + [None, None];
    PresentCons(Some(1.0), [None, None]);
    PresentOfAllMissing([None, None]);
    MeanOfOne(1.0);
  }

  lemma FilledStepThree()
    ensures AverageStep([Some(1.0), Some(1.0), Some(1.0), None], [false, true, true, true], 3, 3)
         == [Some(1.0), Some(1.0), Some(1.0), Some(1.0)]
  {
    var a3: seq<Sample> := [Some(1.0), Some(1.0), Some(1.0), None];
    assert PySlice(a3, 2, 4) == [Some(1.0)] + [None];
    PresentCons(Some(1.0), [None]);
    PresentOfAllMissing([None]);
    MeanOfOne(1.0);
  }

  /**
   * A value filled earlier in the pass feeds later windows: `[1, NA, NA, NA]`
   * with window 3 is filled completely, although the window of position 2
   * holds no originally-present value.
   */
  lemma MovingAverageReadsFilledValues()
    ensures Present(PySlice([Some(1.0), None, None, None], 1, 4)) == []
    ensures MovingAverage([Some(1.0), None, None, None], 3)
         == [Some(1.0), Some(1.0), Some(1.0), Some(1.0)]
  {
    var xs: seq<Sample> := [Some(1.0), None, None, None];
    var mask := [false, true, true, true];
    assert MissingMask(xs) == mask;
    CountMissingZero(xs);
    assert PySlice(xs, 1, 4) == [None, None, None];
    PresentOfAllMissing([None, None, None]);
    assert AveragePass(xs, mask, 3, 1) == xs;
    FilledStepOne();
    assert AveragePass(xs, mask, 3, 2) == [Some(1.0), Some(1.0), None, None];
    FilledStepTwo();
    assert AveragePass(xs, mask, 3, 3) == [Some(1.0), Some(1.0), Some(1.0), None];
    FilledStepThree();
  }

  // ---------------------------------------------------------------------
  // Per-field driver (impute_weather_data_buggy)
  // ---------------------------------------------------------------------

  datatype Field = TempMax | TempMin | Humidity | WindSpeed

  /** The field list, in the order the driver walks it. */
  const Fields: seq<Field> := [TempMax, TempMin, Humidity, WindSpeed]

  /** A record of `weather_data`: the four measurement keys, and every other key passed through. */
  datatype WeatherRecord = WeatherRecord(measurements: map<Field, Sample>, other: map<string, Value>)

  /** `record.get(field)`: a missing key reads as `None`. */
  function Get(r: WeatherRecord, f: Field): Sample
  {
    if f in r.measurements then r.measurements[f] else None
  }

  function Column(records: seq<WeatherRecord>, f: Field): (col: seq<Sample>)
    ensures |col| == |records|
    ensures forall i :: 0 <= i < |records| ==> col[i] == Get(records[i], f)
  {
    seq(|records|, i requires 0 <= i < |records| => Get(records[i], f))
  }

  /** Temperatures go to interpolation, humidity and wind to the moving average with its default window 3. */
  function ImputeField(f: Field, values: seq<Sample>): (r: seq<Sample>)
    ensures |r| == |values|
  {
    if f == TempMax || f == TempMin then Interpolated(values) else MovingAverage(values, 3)
  }

  /** Positions missing before and present after: the count the report promises. */
  function FilledCount(before: seq<Sample>, after: seq<Sample>): (k: nat)
    requires |before| == |after|
    ensures k <= CountMissing(before)
  {
    if before == [] then 0
    else
      var n := |before|;
      FilledCount(before[..n - 1], after[..n - 1])
        + (if before[n - 1].None? && after[n - 1].Some? then 1 else 0)
  }

  /** `record[field] = value`: sets the key, whether or not it was there. */
  function SetField(r: WeatherRecord, f: Field, v: Sample): (r': WeatherRecord)
    ensures f in r'.measurements && r'.measurements[f] == v
    ensures forall g :: g != f ==> (g in r'.measurements <==> g in r.measurements)
    ensures forall g :: g != f && g in r.measurements ==> r'.measurements[g] == r.measurements[g]
    ensures r'.other == r.other
  {
    r.(measurements := r.measurements[f := v])
  }

  /** The `for i, record in enumerate(weather_records)` loop that writes one field back. */
  method StoreColumn(weatherRecords: array<WeatherRecord>, field: Field, imputedValues: seq<Sample>)
    modifies weatherRecords
    ensures forall k :: 0 <= k < weatherRecords.Length ==>
      weatherRecords[k] == if k < |imputedValues| then SetField(old(weatherRecords[k]), field, imputedValues[k])
                           else old(weatherRecords[k])
  {
    var i := 0;
    while i < weatherRecords.Length
      modifies weatherRecords
      invariant 0 <= i <= weatherRecords.Length
      invariant forall k :: 0 <= k < weatherRecords.Length ==>
        weatherRecords[k] == if k < i && k < |imputedValues| then SetField(old(weatherRecords[k]), field, imputedValues[k])
                             else old(weatherRecords[k])
    {
      if i < |imputedValues| {
        weatherRecords[i] := SetField(weatherRecords[i], field, imputedValues[i]);
      }
      i := i + 1;
    }
  }

  /** Every field of `cols` is stored in every record, and every other key is as in `records`. */
  ghost predicate Stored(weatherRecords: seq<WeatherRecord>, records: seq<WeatherRecord>, cols: map<Field, seq<Sample>>)
  {
    |weatherRecords| == |records| &&
    (forall f :: f in cols ==> |cols[f]| == |records|) &&
    forall k :: 0 <= k < |records| ==>
      weatherRecords[k].other == records[k].other &&
      forall f :: f in cols ==> f in weatherRecords[k].measurements && weatherRecords[k].measurements[f] == cols[f][k]
  }

  /** One pass of `for field, values in field_arrays.items()`: impute, count, write back. */
  method ImputeOneField(weatherRecords: array<WeatherRecord>, field: Field, values: seq<Sample>) returns (count: nat)
    requires |values| == weatherRecords.Length
    modifies weatherRecords
    ensures count == CountMissing(values)
    ensures forall k :: 0 <= k < weatherRecords.Length ==>
      weatherRecords[k] == SetField(old(weatherRecords[k]), field, ImputeField(field, values)[k])
  {
    var originalValues := values;
    var imputedValues;
    if field == TempMax || field == TempMin {
      imputedValues := LinearInterpolation(values);
    } else {
      imputedValues := MovingAverageImputation(values, 3);
    }
    count := CountMissing(originalValues);
    StoreColumn(weatherRecords, field, imputedValues);
  }

  lemma StoredExtend(before: seq<WeatherRecord>, after: seq<WeatherRecord>, records: seq<WeatherRecord>,
                     cols: map<Field, seq<Sample>>, field: Field, vals: seq<Sample>)
    requires Stored(before, records, cols) && |vals| == |before| == |after|
    requires forall k :: 0 <= k < |after| ==> after[k] == SetField(before[k], field, vals[k])
    ensures Stored(after, records, cols[field := vals])
  {
  }

  /** Visiting `Fields` in order reaches every field. */
  lemma FieldsCovered(keys: set<Field>)
    requires forall j :: 0 <= j < |Fields| ==> Fields[j] in keys
    ensures forall f: Field :: f in keys
    ensures keys == {TempMax, TempMin, Humidity, WindSpeed}
  {
    assert Fields[0] in keys && Fields[1] in keys && Fields[2] in keys && Fields[3] in keys;
    forall f: Field ensures f in keys {
      match f
      case TempMax =>
      case TempMin =>
      case Humidity =>
      case WindSpeed =>
    }
    forall f | f in keys ensures f in {TempMax, TempMin, Humidity, WindSpeed} {
      match f
      case TempMax =>
      case TempMin =>
      case Humidity =>
      case WindSpeed =>
    }
  }


  /** Every field's imputed column, as the driver will compute it. */
  ghost function Targets(records: seq<WeatherRecord>): map<Field, seq<Sample>>
  {
    map f | f in Fields :: ImputeField(f, Column(records, f))
  }

  /** Every field's number of missing values before imputation. */
  ghost function MissingCounts(records: seq<WeatherRecord>): map<Field, nat>
  {
    map f | f in Fields :: CountMissing(Column(records, f))
  }

  /** Both maps have every field, holding that field's column imputed and its missing count. */
  lemma TargetsAt(records: seq<WeatherRecord>, f: Field)
    ensures f in Targets(records) && Targets(records)[f] == ImputeField(f, Column(records, f))
    ensures f in MissingCounts(records) && MissingCounts(records)[f] == CountMissing(Column(records, f))
  {
    assert f in Fields by {
      match f
      case TempMax => assert Fields[0] == f;
      case TempMin => assert Fields[1] == f;
      case Humidity => assert Fields[2] == f;
      case WindSpeed => assert Fields[3] == f;
    }
  }

  /**
   * What the driver's loop has established after visiting the first `fi`
   * fields: the fields visited so far have their count (as in `expected`)
   * and their imputed column (as in `target`) stored in every record.
   */
  ghost predicate Progress(arr: seq<WeatherRecord>, records: seq<WeatherRecord>,
                           target: map<Field, seq<Sample>>, expected: map<Field, nat>,
                           counts: map<Field, nat>, cols: map<Field, seq<Sample>>, fi: nat)
  {
    fi <= |Fields| &&
    (forall f :: f in counts <==> f in cols) &&
    (forall j :: 0 <= j < fi ==> Fields[j] in cols) &&
    (forall f :: f in counts ==> f in expected && counts[f] == expected[f]) &&
    (forall f :: f in cols ==> f in target && cols[f] == target[f]) &&
    Stored(arr, records, cols)
  }

  lemma ProgressStep(before: seq<WeatherRecord>, after: seq<WeatherRecord>, records: seq<WeatherRecord>,
                     target: map<Field, seq<Sample>>, expected: map<Field, nat>,
                     counts: map<Field, nat>, cols: map<Field, seq<Sample>>, fi: nat, vals: seq<Sample>)
    requires Progress(before, records, target, expected, counts, cols, fi) && fi < |Fields|
    requires Fields[fi] in target && Fields[fi] in expected && vals == target[Fields[fi]]
    requires |vals| == |before| == |after|
    requires forall k :: 0 <= k < |after| ==> after[k] == SetField(before[k], Fields[fi], vals[k])
    ensures Progress(after, records, target, expected,
                     counts[Fields[fi] := expected[Fields[fi]]], cols[Fields[fi] := vals], fi + 1)
  {
    StoredExtend(before, after, records, cols, Fields[fi], vals);
  }

  /**
   * The driver's promise: as many records as given; every field of every
   * record holds that field's imputed column at that position; every other
   * key is untouched; and each field's count is its number of missing values
   * before imputation.
   */
  ghost predicate DriverResult(records: seq<WeatherRecord>, imputed: seq<WeatherRecord>, counts: map<Field, nat>)
  {
    |imputed| == |records| &&
    (forall i, f :: 0 <= i < |records| ==>
      f in imputed[i].measurements && imputed[i].measurements[f] == ImputeField(f, Column(records, f))[i]) &&
    (forall i :: 0 <= i < |records| ==> imputed[i].other == records[i].other) &&
    counts.Keys == {TempMax, TempMin, Humidity, WindSpeed} &&
    forall f :: f in counts ==> counts[f] == CountMissing(Column(records, f))
  }

  /** Once every field has been visited, the loop's bookkeeping is the driver's result. */
  lemma ProgressDone(arr: seq<WeatherRecord>, records: seq<WeatherRecord>,
                     counts: map<Field, nat>, cols: map<Field, seq<Sample>>)
    requires Progress(arr, records, Targets(records), MissingCounts(records), counts, cols, |Fields|)
    ensures DriverResult(records, arr, counts)
  {
    FieldsCovered(counts.Keys);
    forall f: Field
      ensures f in cols && cols[f] == ImputeField(f, Column(records, f))
      ensures f in counts && counts[f] == CountMissing(Column(records, f))
    {
      TargetsAt(records, f);
    }
  }

  /**
   * `impute_weather_data`: copy the records, impute each field's column with
   * the method for that field, write the column back and report, per field,
   * how many values were missing before imputation.
   */
  method ImputeWeatherData(records: seq<WeatherRecord>) returns (imputed: seq<WeatherRecord>, counts: map<Field, nat>)
    ensures DriverResult(records, imputed, counts)
  {
    var n := |records|;
    var weatherRecords := new WeatherRecord[n](k requires 0 <= k < n => records[k]);
    var fieldArrays := map f | f in Fields :: Column(records, f);
    counts := map[];
    ghost var cols: map<Field, seq<Sample>> := map[];
    ghost var target, expected := Targets(records), MissingCounts(records);
    assert weatherRecords[..] == records;
    var fi := 0;
    while fi < |Fields|
      modifies weatherRecords
      invariant Progress(weatherRecords[..], records, target, expected, counts, cols, fi)
    {
      var field := Fields[fi];
      assert field in fieldArrays && fieldArrays[field] == Column(records, field);
      TargetsAt(records, field);
      ghost var before := weatherRecords[..];
      var count := ImputeOneField(weatherRecords, field, fieldArrays[field]);
      assert count == expected[field];
      ghost var vals := ImputeField(field, fieldArrays[field]);
      ProgressStep(before, weatherRecords[..], records, target, expected, counts, cols, fi, vals);
      counts := counts[field := count];
      cols := cols[field := vals];
      fi := fi + 1;
    }
    imputed := weatherRecords[..];
    ProgressDone(imputed, records, counts, cols);
  }

  /** When every missing position ends up present, the filled count is the missing count. */
  lemma {:induction false} FilledCountComplete(before: seq<Sample>, after: seq<Sample>)
    requires |before| == |after|
    requires forall i :: 0 <= i < |after| ==> after[i].Some?
    ensures FilledCount(before, after) == CountMissing(before)
  {
    if before != [] {
      var n := |before|;
      FilledCountComplete(before[..n - 1], after[..n - 1]);
    }
  }

  /**
   * For a temperature field with two or more present values the reported
   * count (originally-`None` positions) equals the number actually filled.
   */
  lemma ReportedCountExactForInterpolation(records: seq<WeatherRecord>, f: Field)
    requires f == TempMax || f == TempMin
    requires CountPresent(Column(records, f)) >= 2
    ensures CountMissing(Column(records, f)) == FilledCount(Column(records, f), ImputeField(f, Column(records, f)))
  {
    InterpolationFillsAll(Column(records, f));
    FilledCountComplete(Column(records, f), ImputeField(f, Column(records, f)));
  }

  /**
   * The reported count can overstate what was filled: a humidity column of
   * three `None`s is reported as 3 although the moving average fills none.
   */
  lemma ReportedCountOverstatesFilled()
    ensures var col: seq<Sample> := [None, None, None];
      CountMissing(col) == 3 && FilledCount(col, ImputeField(Humidity, col)) == 0
  {
    var col: seq<Sample> := [None, None, None];
    MovingAverageAllMissing(col, 3);
    assert ImputeField(Humidity, col) == col;
  }
}
