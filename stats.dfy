/** The two numpy reductions the weather scripts rely on: `sum` and `mean` over reals. */
module Stats {

  function Sum(vs: seq<real>): real
  {
    if vs == [] then 0.0 else Sum(vs[..|vs| - 1]) + vs[|vs| - 1]
  }

  /** `np.mean`: the sum divided by the number of values. */
  function Mean(vs: seq<real>): real
    requires |vs| > 0
  {
    Sum(vs) / (|vs| as real)
  }

  /** The sum of squared deviations from `m`, the numerator of `np.std`'s variance. */
  function SumSquares(vs: seq<real>, m: real): real
  {
    if vs == [] then 0.0
    else SumSquares(vs[..|vs| - 1], m) + (vs[|vs| - 1] - m) * (vs[|vs| - 1] - m)
  }

  lemma Square(d: real)
    ensures d * d >= 0.0
  {
    if d < 0.0 {
      assert d * d == (-d) * (-d);
    }
  }

  lemma {:induction false} SumSquaresNonNegative(vs: seq<real>, m: real)
    ensures SumSquares(vs, m) >= 0.0
  {
    if vs != [] {
      SumSquaresNonNegative(vs[..|vs| - 1], m);
      Square(vs[|vs| - 1] - m);
    }
  }

  /** A series that never deviates from `m` has a zero sum of squares about `m`. */
  lemma {:induction false} SumSquaresZero(vs: seq<real>, m: real)
    requires forall i :: 0 <= i < |vs| ==> vs[i] == m
    ensures SumSquares(vs, m) == 0.0
  {
    if vs != [] {
      var p := vs[..|vs| - 1];
      assert forall i :: 0 <= i < |p| ==> p[i] == vs[i];
      SumSquaresZero(p, m);
    }
  }

  /** Appending one value adds its squared deviation. */
  lemma SumSquaresSnoc(vs: seq<real>, x: real, m: real)
    ensures SumSquares(vs + [x], m) == SumSquares(vs, m) + (x - m) * (x - m)
  {
    assert (vs + [x])[..|vs|] == vs;
  }

  /** `k` copies of `c` deviate from `m` by `k * (c - m)^2` in total. */
  lemma {:induction false} SumSquaresConstant(vs: seq<real>, c: real, m: real)
    requires forall i :: 0 <= i < |vs| ==> vs[i] == c
    ensures SumSquares(vs, m) == (|vs| as real) * ((c - m) * (c - m))
  {
    if vs != [] {
      var p := vs[..|vs| - 1];
      assert forall i :: 0 <= i < |p| ==> p[i] == vs[i];
      SumSquaresConstant(p, c, m);
    }
  }

  /** Appending one value adds it to the sum. */
  lemma SumSnoc(vs: seq<real>, x: real)
    ensures Sum(vs + [x]) == Sum(vs) + x
  {
    assert (vs + [x])[..|vs|] == vs;
  }

  lemma {:induction false} SumBounds(vs: seq<real>, lo: real, hi: real)
    requires forall i :: 0 <= i < |vs| ==> lo <= vs[i] <= hi
    ensures (|vs| as real) * lo <= Sum(vs) <= (|vs| as real) * hi
  {
    if vs != [] {
      SumBounds(vs[..|vs| - 1], lo, hi);
    }
  }

  /** A mean never leaves the range of the values it averages. */
  lemma MeanBounds(vs: seq<real>, lo: real, hi: real)
    requires |vs| > 0
    requires forall i :: 0 <= i < |vs| ==> lo <= vs[i] <= hi
    ensures lo <= Mean(vs) <= hi
  {
    var n := |vs| as real;
    SumBounds(vs, lo, hi);
    assert n * lo <= Sum(vs) <= n * hi;
    assert Sum(vs) / n >= (n * lo) / n;
    assert Sum(vs) / n <= (n * hi) / n;
  }

  /** The mean of a series whose every value is `c` is `c`. */
  lemma {:induction false} SumConstant(vs: seq<real>, c: real)
    requires forall i :: 0 <= i < |vs| ==> vs[i] == c
    ensures Sum(vs) == (|vs| as real) * c
  {
    if vs != [] {
      SumConstant(vs[..|vs| - 1], c);
    }
  }
}
